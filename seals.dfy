/** The runtime's integrity monitors: the permission-carrying RunTimeSeal of
    src/internal/runtime_seal.rs, the Cardinal of src/internal/cardinal.rs and the
    boolean seal of src/internal/runtime_seal/mod.rs. */
module RuntimeSeal {

  /** Status (runtime_seal.rs:74-78). */
  datatype Status = NotStarted | Untampered | Tampered

  /** Permissions (runtime_seal.rs:82-85). */
  datatype Permissions = Read | Write

  class RunTimeSeal {
    var runtimeStatus: Status
    var rustCPermissions: Permissions
    var globalPermissions: Permissions
    var callStackPermissions: Permissions
    var constantStackPermissions: Permissions

    /** `RunTimeSeal::new` (runtime_seal.rs:18-27): not started, everything writable. */
    constructor ()
      ensures runtimeStatus == NotStarted
      ensures rustCPermissions == Write && globalPermissions == Write
      ensures callStackPermissions == Write && constantStackPermissions == Write
    {
      runtimeStatus := NotStarted;
      rustCPermissions := Write;
      globalPermissions := Write;
      callStackPermissions := Write;
      constantStackPermissions := Write;
    }

    /** runtime_security_status (runtime_seal.rs:34-36): the status, read only. */
    method RuntimeSecurityStatus() returns (s: Status)
      ensures s == runtimeStatus
    {
      s := runtimeStatus;
    }

    /** set_runtime (runtime_seal.rs:40-42). */
    method SetRuntime()
      modifies this
      ensures runtimeStatus == Untampered
      ensures rustCPermissions == old(rustCPermissions) && globalPermissions == old(globalPermissions)
      ensures callStackPermissions == old(callStackPermissions)
      ensures constantStackPermissions == old(constantStackPermissions)
    {
      runtimeStatus := Untampered;
    }

    /** runtime_tampered (runtime_seal.rs:46-48). */
    method RuntimeTampered()
      modifies this
      ensures runtimeStatus == Tampered
      ensures rustCPermissions == old(rustCPermissions) && globalPermissions == old(globalPermissions)
      ensures callStackPermissions == old(callStackPermissions)
      ensures constantStackPermissions == old(constantStackPermissions)
    {
      runtimeStatus := Tampered;
    }

    /** set_rust_c_perms (runtime_seal.rs:57-63): before the runtime starts the
        level is set; afterwards the attempt marks the runtime tampered and the
        permission stays as it was. */
    method SetRustCPerms(level: Permissions)
      modifies this
      ensures old(runtimeStatus) == NotStarted ==> runtimeStatus == NotStarted && rustCPermissions == level
      ensures old(runtimeStatus) != NotStarted ==> runtimeStatus == Tampered && rustCPermissions == old(rustCPermissions)
      ensures globalPermissions == old(globalPermissions) && callStackPermissions == old(callStackPermissions)
      ensures constantStackPermissions == old(constantStackPermissions)
    {
      if runtimeStatus != NotStarted {
        RuntimeTampered();
        return;
      }
      rustCPermissions := level;
    }

    /** set_global_perms (runtime_seal.rs:66-68) has an empty body. */
    method SetGlobalPerms(level: Permissions)
      ensures runtimeStatus == old(runtimeStatus) && globalPermissions == old(globalPermissions)
    {
    }
  }
}

module Cardinal {

  /** Status (cardinal.rs:46-50). */
  datatype Status = NotStarted | Untampered | Tampered

  class Cardinal {
    var runtimeStatus: Status

    /** `Cardinal::new` (cardinal.rs:17-22). */
    constructor ()
      ensures runtimeStatus == NotStarted
    {
      runtimeStatus := NotStarted;
    }

    /** runtime_security_status (cardinal.rs:26-28): read only. */
    method RuntimeSecurityStatus() returns (s: Status)
      ensures s == runtimeStatus
    {
      s := runtimeStatus;
    }

    /** set_runtime (cardinal.rs:32-34): whatever the status was, Tampered
        included, it becomes Untampered; nothing latches. */
    method SetRuntime()
      modifies this
      ensures runtimeStatus == Untampered
    {
      runtimeStatus := Untampered;
    }

    /** runtime_tampered (cardinal.rs:38-40). */
    method RuntimeTampered()
      modifies this
      ensures runtimeStatus == Tampered
    {
      runtimeStatus := Tampered;
    }
  }
}

module SealFlag {

  /** The older seal (runtime_seal/mod.rs:2-4): one flag. */
  class RunTimeSeal {
    var untamperedRuntime: bool

    /** `RunTimeSeal::new` (runtime_seal/mod.rs:19-21): not untampered until set. */
    constructor ()
      ensures !untamperedRuntime
    {
      untamperedRuntime := false;
    }

    /** set_runtime (runtime_seal/mod.rs:9-11); calling it again changes nothing more. */
    method SetRuntime()
      modifies this
      ensures untamperedRuntime
    {
      untamperedRuntime := true;
    }

    /** runtime_tampered (runtime_seal/mod.rs:15-17); idempotent likewise. */
    method RuntimeTampered()
      modifies this
      ensures !untamperedRuntime
    {
      untamperedRuntime := false;
    }
  }
}
