/**
 The mount(2) flags the helper passes. The C code ORs them into one integer word.
 Every flag owns its own single bit (values from Linux's <sys/mount.h>), which is why
 the model works with the set of flags instead of the word.
 */
module MountFlags {

  datatype MountFlag =
    | RdOnly      // MS_RDONLY
    | NoSuid      // MS_NOSUID
    | NoDev       // MS_NODEV
    | NoExec      // MS_NOEXEC
    | Remount     // MS_REMOUNT
    | NoAtime     // MS_NOATIME
    | NoDirAtime  // MS_NODIRATIME
    | Bind        // MS_BIND
    | Rec         // MS_REC
    | Private     // MS_PRIVATE
    | RelAtime    // MS_RELATIME

  /** The bit a flag occupies in the flag word. */
  function Bit(f: MountFlag): bv32 {
    match f
    case RdOnly => 0x1
    case NoSuid => 0x2
    case NoDev => 0x4
    case NoExec => 0x8
    case Remount => 0x20
    case NoAtime => 0x400
    case NoDirAtime => 0x800
    case Bind => 0x1000
    case Rec => 0x4000
    case Private => 0x4_0000
    case RelAtime => 0x20_0000
  }

  /** Each flag is a single bit, and distinct flags occupy disjoint bits. */
  lemma BitsDisjoint()
    ensures forall f :: Bit(f) != 0 && Bit(f) & (Bit(f) - 1) == 0
    ensures forall f, g :: (Bit(f) & Bit(g) != 0) <==> f == g
  {
  }
}
