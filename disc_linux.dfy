/**
 * The pure parts of src/rsvc/disc_linux.c: shortening a device node for
 * display, and classifying a drive's current MMC profile (the GET
 * CONFIGURATION feature header of the SCSI Multimedia Commands) as a disc
 * type.
 */
module DiscLinux {
  import opened Common

  datatype DiscType = NoDisc | CD | DVD | BD | HDDVD

  const DevPrefix := "/dev/"

  /** `abbrev_dev`: "/dev/sr0" becomes "sr0"; anything under a subdirectory of /dev, or elsewhere, is kept whole. */
  function AbbrevDev(devnode: string): (r: string)
    ensures r != devnode ==> StartsWith(devnode, DevPrefix) && devnode == DevPrefix + r && '/' !in r
    ensures StartsWith(devnode, DevPrefix) && '/' !in devnode[|DevPrefix|..] ==> devnode == DevPrefix + r
    ensures r == devnode || |r| + |DevPrefix| == |devnode|
  {
    if StartsWith(devnode, DevPrefix) && '/' !in devnode[|DevPrefix|..] then
      assert devnode == DevPrefix + devnode[|DevPrefix|..];
      devnode[|DevPrefix|..]
    else devnode
  }

  /** A bare device name under /dev abbreviates back to itself. */
  lemma {:induction false} AbbrevDevOfDevName(name: string)
    requires '/' !in name
    ensures AbbrevDev(DevPrefix + name) == name
  {
    assert (DevPrefix + name)[|DevPrefix|..] == name;
    assert StartsWith(DevPrefix + name, DevPrefix);
  }

  /** `profile_disc_type`: the switch over MMC profile numbers. */
  function ProfileDiscType(profile: int): DiscType
  {
    if profile in {0x08, 0x09, 0x0a} then CD
    else if profile in {0x10, 0x11, 0x12, 0x13, 0x14, 0x15, 0x16, 0x17, 0x18, 0x1a, 0x1b, 0x2a, 0x2b} then DVD
    else if profile in {0x40, 0x41, 0x42, 0x43} then BD
    else if profile in {0x50, 0x51, 0x52, 0x53, 0x58, 0x5a} then HDDVD
    else NoDisc
  }

  /**
   * Every recognised profile lies in its family's block of the MMC profile
   * list: CD profiles below 0x10, DVD profiles at 0x10-0x2f, BD at 0x40-0x4f
   * and HD DVD at 0x50-0x5f.
   */
  lemma {:induction false} ProfileFamilies(profile: int)
    ensures ProfileDiscType(profile) == CD ==> 0 <= profile < 0x10
    ensures ProfileDiscType(profile) == DVD ==> 0x10 <= profile < 0x30
    ensures ProfileDiscType(profile) == BD ==> 0x40 <= profile < 0x50
    ensures ProfileDiscType(profile) == HDDVD ==> 0x50 <= profile < 0x60
    ensures profile < 0 || profile >= 0x60 ==> ProfileDiscType(profile) == NoDisc
  {
  }

  /**
   * `fd_to_disc_type`: `reply` is the 8-byte GET CONFIGURATION header the
   * ioctl fills in, or `None` when the ioctl fails. The current profile is
   * the big-endian 16-bit field at bytes 6-7.
   */
  function FdToDiscType(reply: Option<seq<byte>>): (r: DiscType)
    requires reply.Some? ==> |reply.value| == 8
    ensures reply.None? ==> r == NoDisc
    ensures reply.Some? ==> r == ProfileDiscType(BigEndian(reply.value[6..8]))
  {
    match reply
    case None => NoDisc
    case Some(buf) =>
      assert buf[6..8][..1] == [buf[6]];
      ProfileDiscType(buf[6] as int * 256 + buf[7])
  }

  /** The GET CONFIGURATION header a drive returns: data length, two reserved bytes, current profile. */
  function ConfigurationHeader(dataLength: nat, profile: nat): (r: seq<byte>)
    requires dataLength < 0x1_0000_0000 && profile < 0x10000
    ensures |r| == 8
  {
    BigEndianBytes(dataLength, 4) + [0, 0] + BigEndianBytes(profile, 2)
  }

  /** The disc type read from a drive's reply is the type of the profile it reports. */
  lemma {:induction false} FdReadsProfile(dataLength: nat, profile: nat)
    requires dataLength < 0x1_0000_0000 && profile < 0x10000
    ensures FdToDiscType(Some(ConfigurationHeader(dataLength, profile))) == ProfileDiscType(profile)
  {
    assert ConfigurationHeader(dataLength, profile)[6..8] == BigEndianBytes(profile, 2);
    BigEndianRoundTrip(profile, 2);
  }

  /** `path_to_disc_type`: a device that cannot be opened has no disc; otherwise ask the drive. */
  function PathToDiscType(canOpen: bool, reply: Option<seq<byte>>): (r: DiscType)
    requires reply.Some? ==> |reply.value| == 8
    ensures !canOpen ==> r == NoDisc
    ensures canOpen ==> r == FdToDiscType(reply)
  {
    if !canOpen then NoDisc else FdToDiscType(reply)
  }
}
