/** Small value wrappers shared by the binding's modules. */
module Common {

  /** A value that may be absent; stands for a nullable pointer or an empty weak reference. */
  datatype Option<+T> = None | Some(value: T)

  /** The outcome of an operation that may raise a PHP exception instead of returning. */
  datatype Result<+T, +E> = Ok(value: T) | Err(error: E)

  /** The PHP exceptions the binding raises through SystemLib. */
  datatype PhpException =
    | InvalidArgumentException(message: string)
    | BadMethodCallException(message: string)
}

/**
 * The parts of the gRPC core library that the binding calls but that are not
 * modelled: channels and call credentials are opaque handles that the core
 * hands out and takes back. Creation may fail; that is an input of the model.
 */
module GrpcCore {
  import opened Common

  /** An opaque `grpc_channel*` (non-null). */
  type Handle = nat

  /** An opaque `grpc_call_credentials*` (non-null). */
  type CredentialsHandle = nat

  class Core {
    /** Channels created and not yet destroyed. */
    var liveChannels: set<Handle>
    /** The target of every channel ever created (what `grpc_channel_get_target` reports). */
    var targets: map<Handle, string>
    /** Call credentials the binding still holds a reference to. */
    var liveCallCredentials: set<CredentialsHandle>
    /** The next handle value the core will hand out. */
    var nextHandle: nat

    ghost predicate Valid()
      reads this
    {
      liveChannels <= targets.Keys &&
      (forall h :: h in targets ==> h < nextHandle) &&
      (forall c :: c in liveCallCredentials ==> c < nextHandle)
    }

    constructor ()
      ensures Valid()
      ensures liveChannels == {} && targets == map[] && liveCallCredentials == {}
    {
      liveChannels := {};
      targets := map[];
      liveCallCredentials := {};
      nextHandle := 0;
    }

    /**
     * `grpc_insecure_channel_create` / `grpc_secure_channel_create`: a fresh
     * handle, or None when the core refuses (`fails`).
     */
    method CreateChannel(target: string, fails: bool) returns (h: Option<Handle>)
      requires Valid()
      modifies this
      ensures Valid()
      ensures liveCallCredentials == old(liveCallCredentials)
      ensures fails ==> h == None && liveChannels == old(liveChannels) && targets == old(targets) &&
                        nextHandle == old(nextHandle)
      ensures !fails ==> h == Some(old(nextHandle)) && h.value !in old(targets) &&
                         liveChannels == old(liveChannels) + {h.value} &&
                         targets == old(targets)[h.value := target]
    {
      if fails {
        h := None;
      } else {
        h := Some(nextHandle);
        liveChannels := liveChannels + {nextHandle};
        targets := targets[nextHandle := target];
        nextHandle := nextHandle + 1;
      }
    }

    /** `grpc_channel_destroy`: the channel must still be alive. */
    method DestroyChannel(h: Handle)
      requires Valid() && h in liveChannels
      modifies this
      ensures Valid()
      ensures liveChannels == old(liveChannels) - {h}
      ensures targets == old(targets) && liveCallCredentials == old(liveCallCredentials)
    {
      liveChannels := liveChannels - {h};
    }

    /**
     * `grpc_composite_call_credentials_create` / `grpc_metadata_credentials_create_from_plugin`:
     * a fresh credentials handle, or None when the core refuses (`fails`).
     */
    method CreateCallCredentials(fails: bool) returns (c: Option<CredentialsHandle>)
      requires Valid()
      modifies this
      ensures Valid()
      ensures liveChannels == old(liveChannels) && targets == old(targets)
      ensures fails ==> c == None && liveCallCredentials == old(liveCallCredentials)
      ensures !fails ==> c.Some? && c.value !in old(liveCallCredentials) &&
                         liveCallCredentials == old(liveCallCredentials) + {c.value}
    {
      if fails {
        c := None;
      } else {
        c := Some(nextHandle);
        liveCallCredentials := liveCallCredentials + {nextHandle};
        nextHandle := nextHandle + 1;
      }
    }

    /** `grpc_call_credentials_release`: drops the binding's reference, which must be held. */
    method ReleaseCallCredentials(c: CredentialsHandle)
      requires Valid() && c in liveCallCredentials
      modifies this
      ensures Valid()
      ensures liveCallCredentials == old(liveCallCredentials) - {c}
      ensures liveChannels == old(liveChannels) && targets == old(targets)
    {
      liveCallCredentials := liveCallCredentials - {c};
    }
  }
}
