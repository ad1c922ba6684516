/** Mount permissions and the remount flags they ask for (src/mount/ops.rs). */
module MountOps {
  import opened Wrappers

  datatype MountFlag = READ_ONLY | NO_EXEC | NO_SUID | NO_DEV

  datatype MsFlag = MS_RDONLY | MS_NOEXEC | MS_NOSUID | MS_NODEV | MS_BIND | MS_REMOUNT | MS_REC

  datatype Permission = ReadOnly | ReadWrite | Custom(flags: set<MountFlag>)

  /** `mount_flags_to_ms`. */
  function MountFlagsToMs(flags: set<MountFlag>): set<MsFlag> {
    (if READ_ONLY in flags then {MS_RDONLY} else {})
    + (if NO_EXEC in flags then {MS_NOEXEC} else {})
    + (if NO_SUID in flags then {MS_NOSUID} else {})
    + (if NO_DEV in flags then {MS_NODEV} else {})
  }

  /** Each requested flag becomes its kernel flag, and nothing else does. */
  lemma {:induction false} FlagsKeepTheirMeaning(flags: set<MountFlag>, ms: MsFlag)
    ensures ms in MountFlagsToMs(flags) <==>
              match ms
              case MS_RDONLY => READ_ONLY in flags
              case MS_NOEXEC => NO_EXEC in flags
              case MS_NOSUID => NO_SUID in flags
              case MS_NODEV => NO_DEV in flags
              case _ => false
  {
  }

  /** `permission_to_remount_flags`. */
  function PermissionToRemountFlags(p: Permission, recursive: bool): set<MsFlag> {
    var flags := {MS_BIND, MS_REMOUNT} + if recursive then {MS_REC} else {};
    match p
    case ReadOnly => flags + {MS_RDONLY}
    case ReadWrite => flags
    case Custom(custom) => flags + MountFlagsToMs(custom)
  }

  /** `remount_flags`: no remount for read-write or an empty custom set. */
  function RemountFlags(p: Permission, recursive: bool): Option<set<MsFlag>> {
    match p
    case ReadWrite => None
    case Custom(flags) => if flags == {} then None else Some(PermissionToRemountFlags(p, recursive))
    case ReadOnly => Some(PermissionToRemountFlags(p, recursive))
  }

  /** The per-mount options that a remount with these flags leaves. */
  function OptionsOf(flags: set<MsFlag>): set<MsFlag> {
    flags - {MS_BIND, MS_REMOUNT, MS_REC}
  }

  /**
   A permission triggers a remount unless it is read-write or an empty custom set, recursive or not; the remount is
   read-only iff asked for, leaves exactly the requested options, and is recursive iff the bind is.
   */
  lemma {:induction false} RemountOnlyOnRequest(p: Permission, recursive: bool)
    ensures RemountFlags(p, recursive).None? <==> p.ReadWrite? || p == Custom({})
    ensures RemountFlags(p, recursive).Some? ==>
              var flags := RemountFlags(p, recursive).value;
              && OptionsOf(flags) == (if p.ReadOnly? then {MS_RDONLY} else MountFlagsToMs(p.flags))
              && (MS_RDONLY in flags <==> p.ReadOnly? || READ_ONLY in p.flags)
              && (MS_REC in flags <==> recursive) && {MS_BIND, MS_REMOUNT} <= flags
  {
  }
}
