/**
 The kernel as the helper sees it: the system calls it makes and the answers it gets.
 The effect of each call on the real system is not modelled; a run is described by
 which calls were attempted, in which order, and what each returned.
 */
module Kernel {
  import opened Wrappers
  import opened MountFlags

  /** An errno value (Linux numbering for the ones the helper names). */
  type Errno = nat

  const EPERM: Errno := 1
  const EACCES: Errno := 13
  const EINVAL: Errno := 22
  const ESTALE: Errno := 116

  /** What a system call returned: success, or -1 with `errno` set. */
  datatype SysResult = Ok | Err(errno: Errno)

  /** The namespaces unshare(2) can detach (CLONE_NEWNS, CLONE_NEWNET, CLONE_NEWIPC). */
  datatype CloneFlag = NewNs | NewNet | NewIpc

  /** One privileged system call with its arguments. */
  datatype Op =
    | Unshare(clone: set<CloneFlag>)
    | Mount(source: Option<string>, target: string, flags: set<MountFlag>)
    | Chdir(path: string)
    | Chroot(path: string)
    | SetGid(gid: int)
    | SetUid(uid: int)
    | ExecVP(file: string, argv: seq<string>)

  /** A call the helper made, with the kernel's answer. */
  datatype Attempt = Attempt(op: Op, result: SysResult)

  /** The call changes the process identity. */
  predicate IsIdentityChange(op: Op) {
    op.SetGid? || op.SetUid?
  }
}
