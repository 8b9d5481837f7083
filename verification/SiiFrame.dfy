/** The configuration area of a finished image (ETG.1000.6, Table 16): which word holds what, after all
    the overlapping and adjacent writes. */
module SiiFrame {
  import opened Wrappers
  import opened SiiBytes
  import opened SiiStrings
  import opened EsiDevice
  import opened SiiImage
  import SiiChecksum

  lemma SliceKeepsPart(buf: seq<byte>, offset: nat, part: seq<byte>, at: nat, kept: seq<byte>)
    requires offset <= |buf| && At(buf, at, kept) && at + |kept| <= offset
    ensures At(SliceAssign(buf, offset, part), at, kept)
  {
    var r := SliceAssign(buf, offset, part);
    SliceOfPrefix(r, offset, at, at + |kept|);
    SliceOfPrefix(buf, offset, at, at + |kept|);
  }

  // ---------- The stages of the buffer ----------

  /** With ConfigData and the identity words. */
  ghost function Identified(d: Description): (r: seq<byte>)
    requires ByteSize(d) >= 0x80
    ensures |r| >= 0x80
  {
    WithIdentity(SliceAssign(Blank(ByteSize(d)), 0, ConfigData(d)), d)
  }

  /** With BootStrap as well. */
  ghost function Bootstrapped(d: Description): (r: seq<byte>)
    requires ByteSize(d) >= 0x80
    ensures |r| >= 0x80
  {
    SliceAssign(Identified(d), 0x28, BootStrap(d))
  }

  ghost function WithMailboxWords(d: Description): (r: seq<byte>)
    requires ByteSize(d) >= 0x80
    ensures |r| >= 0x80
  {
    WithMailboxes(Bootstrapped(d), d.device.sms)
  }

  /** Everything but the checksum. */
  ghost function BeforeChecksum(d: Description): (r: seq<byte>)
    requires ByteSize(d) >= 0x80
    ensures |r| >= 0x80
  {
    WithTail(WithMailboxWords(d), d)
  }

  /** The configuration area of the image is t with its checksum written into it. */
  ghost predicate AreaOf(image: seq<byte>, t: seq<byte>) {
    && |image| >= 0x80 && |t| >= 0x80
    && image[..0x80] == PutU16(t, 0x0E, ChecksumWord(t))[..0x80]
  }

  lemma ImageArea(d: Description)
    requires Buildable(d)
    ensures ByteSize(d) >= 0x80 && AreaOf(Image(d), BeforeChecksum(d))
  {
  }

  lemma PrefixKeepsPart(image: seq<byte>, t: seq<byte>, at: nat, kept: seq<byte>)
    requires |image| >= 0x80 && |t| >= 0x80 && image[..0x80] == t[..0x80]
    requires At(t, at, kept) && at + |kept| <= 0x80
    ensures At(image, at, kept)
  {
    SliceOfPrefix(image, 0x80, at, at + |kept|);
    SliceOfPrefix(t, 0x80, at, at + |kept|);
  }

  /** What lies in front of the categories and away from the checksum word stays to the end. */
  lemma KeptToTheEnd(image: seq<byte>, t: seq<byte>, at: nat, kept: seq<byte>)
    requires AreaOf(image, t) && At(t, at, kept)
    requires at + |kept| <= 0x0E || 0x10 <= at
    requires at + |kept| <= 0x80
    ensures At(image, at, kept)
  {
    var w := U16(ChecksumWord(t) % 0x1_0000);
    PatchKeepsPart(t, 0x0E, w, at, kept);
    PrefixKeepsPart(image, Patch(t, 0x0E, w), at, kept);
  }

  lemma ImageLength(d: Description)
    requires Buildable(d)
    ensures var sizes := (ByteSize(d), |ConfigData(d)|, 0x28 + |BootStrap(d)|);
            && |Image(d)| >= sizes.0 && |Image(d)| >= sizes.1 && |Image(d)| >= sizes.2
            && (|Image(d)| == sizes.0 || |Image(d)| == sizes.1 || |Image(d)| == sizes.2)
  {
  }

  /** The image has ByteSize bytes exactly when ConfigData and BootStrap fit; otherwise it is longer. */
  lemma ImageHasByteSize(d: Description)
    requires Buildable(d)
    ensures |Image(d)| == ByteSize(d) <==> |ConfigData(d)| <= ByteSize(d) && 0x28 + |BootStrap(d)| <= ByteSize(d)
  {
    ImageLength(d);
  }

  // ---------- The checksum ----------

  lemma ChecksumFromPrefix(image: seq<byte>, t: seq<byte>)
    requires |image| >= 14 && |t| >= 14 && image[..14] == t[..14]
    ensures ChecksumWord(t) == SiiChecksum.Checksum(AsBits(image[..14])) as int && 0 <= ChecksumWord(t) < 0x100
  {
  }

  lemma WordBytes(data: seq<byte>, at: nat, v: nat)
    requires v < 0x1_0000 && At(data, at, U16(v))
    ensures data[at] == v % 0x100 && data[at + 1] == v / 0x100
  {
    assert data[at] == data[at..at + 2][0] && data[at + 1] == data[at..at + 2][1];
  }

  lemma FirstBytesKept(image: seq<byte>, t: seq<byte>)
    requires AreaOf(image, t)
    ensures image[..14] == t[..14]
  {
    hide ChecksumWord;
    var w := U16(ChecksumWord(t) % 0x1_0000);
    var area := Patch(t, 0x0E, w);
    assert image[..0x80][..14] == image[..14] && area[..0x80][..14] == area[..14];
    assert area[..0x0E] == t[..0x0E];
  }

  lemma ChecksumWordStored(image: seq<byte>, t: seq<byte>)
    requires AreaOf(image, t)
    ensures 0 <= ChecksumWord(t) < 0x100 ==> image[0x0E] == ChecksumWord(t) && image[0x0F] == 0
  {
    hide ChecksumWord;
    var w := U16(ChecksumWord(t) % 0x1_0000);
    PrefixKeepsPart(image, Patch(t, 0x0E, w), 0x0E, w);
    WordBytes(image, 0x0E, ChecksumWord(t) % 0x1_0000);
  }

  lemma ChecksumInArea(image: seq<byte>, t: seq<byte>)
    requires AreaOf(image, t)
    ensures image[0x0E] == SiiChecksum.Checksum(AsBits(image[..14])) as int && image[0x0F] == 0
  {
    FirstBytesKept(image, t);
    ChecksumWordStored(image, t);
    ChecksumFromPrefix(image, t);
    hide ChecksumWord;
  }

  /** The low byte at 0x0E is the checksum of the first 14 bytes of the finished image; the high byte is 0. */
  lemma ChecksumStored(d: Description)
    requires Buildable(d)
    ensures Image(d)[0x0E] == SiiChecksum.Checksum(AsBits(Image(d)[..14])) as int
    ensures Image(d)[0x0F] == 0
  {
    ImageArea(d);
    ChecksumInArea(Image(d), BeforeChecksum(d));
  }

  // ---------- Identity ----------

  lemma IdentityWords(buf: seq<byte>, d: Description)
    requires |buf| >= 0x80
    ensures At(WithIdentity(buf, d), 0x10, U32(d.vendorId % 0x1_0000_0000))
    ensures At(WithIdentity(buf, d), 0x14, U32(d.productCode % 0x1_0000_0000))
    ensures At(WithIdentity(buf, d), 0x18, U32(d.revisionNo % 0x1_0000_0000))
    ensures At(WithIdentity(buf, d), 0x1C, U32(0))
  {
    var v, p, r := U32(d.vendorId % 0x1_0000_0000), U32(d.productCode % 0x1_0000_0000),
        U32(d.revisionNo % 0x1_0000_0000);
    var b1 := Patch(buf, 0x10, v);
    var b2 := Patch(b1, 0x14, p);
    var b3 := Patch(b2, 0x18, r);
    PatchKeepsPart(b1, 0x14, p, 0x10, v);
    PatchKeepsPart(b2, 0x18, r, 0x10, v);
    PatchKeepsPart(b3, 0x1C, U32(0), 0x10, v);
    PatchKeepsPart(b2, 0x18, r, 0x14, p);
    PatchKeepsPart(b3, 0x1C, U32(0), 0x14, p);
    PatchKeepsPart(b3, 0x1C, U32(0), 0x18, r);
  }

  lemma MailboxesKeep(buf: seq<byte>, sms: seq<SyncManager>, at: nat, kept: seq<byte>)
    requires |buf| >= 0x80 && At(buf, at, kept) && (at + |kept| <= 0x30 || 0x38 <= at)
    ensures At(WithMailboxes(buf, sms), at, kept)
  {
    if |sms| >= 2 {
      var b1 := PutU16(buf, 0x30, sms[0].startAddress);
      var b2 := PutU16(b1, 0x32, sms[0].size);
      var b3 := PutU16(b2, 0x34, sms[1].startAddress);
      PatchKeepsPart(buf, 0x30, U16(sms[0].startAddress % 0x1_0000), at, kept);
      PatchKeepsPart(b1, 0x32, U16(sms[0].size % 0x1_0000), at, kept);
      PatchKeepsPart(b2, 0x34, U16(sms[1].startAddress % 0x1_0000), at, kept);
      PatchKeepsPart(b3, 0x36, U16(sms[1].size % 0x1_0000), at, kept);
    }
  }

  lemma TailKeeps(buf: seq<byte>, d: Description, at: nat, kept: seq<byte>)
    requires |buf| >= 0x80 && At(buf, at, kept)
    requires at + |kept| <= 0x38 || (0x3A <= at && at + |kept| <= 0x7C)
    ensures At(WithTail(buf, d), at, kept)
  {
    var protocol := MailboxProtocol(d.device.mailbox);
    var b1 := PutU16(buf, 0x38, protocol);
    var b2 := PutU16(b1, 0x7C, SizeWord(ByteSize(d)));
    PatchKeepsPart(buf, 0x38, U16(protocol % 0x1_0000), at, kept);
    PatchKeepsPart(b1, 0x7C, U16(SizeWord(ByteSize(d)) % 0x1_0000), at, kept);
    PatchKeepsPart(b2, 0x7E, U16(1), at, kept);
  }

  lemma IdentityWordKept(image: seq<byte>, d: Description, at: nat, v: nat)
    requires ByteSize(d) >= 0x80 && AreaOf(image, BeforeChecksum(d))
    requires v < 0x1_0000_0000 && 0x10 <= at <= 0x1C && At(Identified(d), at, U32(v))
    ensures ReadU32(image, at) == v
  {
    var part := U32(v);
    SliceKeepsPart(Identified(d), 0x28, BootStrap(d), at, part);
    MailboxesKeep(Bootstrapped(d), d.device.sms, at, part);
    TailKeeps(WithMailboxWords(d), d, at, part);
    KeptToTheEnd(image, BeforeChecksum(d), at, part);
    ReadWritten32(image, at, v);
  }

  /** The identity words are the inputs, reduced to 32 bits. */
  lemma IdentityStored(d: Description)
    requires Buildable(d)
    ensures ReadU32(Image(d), 0x10) == d.vendorId % 0x1_0000_0000
    ensures ReadU32(Image(d), 0x14) == d.productCode % 0x1_0000_0000
    ensures ReadU32(Image(d), 0x18) == d.revisionNo % 0x1_0000_0000
    ensures ReadU32(Image(d), 0x1C) == 0
  {
    ImageArea(d);
    IdentityWords(SliceAssign(Blank(ByteSize(d)), 0, ConfigData(d)), d);
    IdentityWordKept(Image(d), d, 0x10, d.vendorId % 0x1_0000_0000);
    IdentityWordKept(Image(d), d, 0x14, d.productCode % 0x1_0000_0000);
    IdentityWordKept(Image(d), d, 0x18, d.revisionNo % 0x1_0000_0000);
    IdentityWordKept(Image(d), d, 0x1C, 0);
  }

  // ---------- Mailboxes, protocols, size and version ----------

  lemma FourWords(buf: seq<byte>, w1: seq<byte>, w2: seq<byte>, w3: seq<byte>, w4: seq<byte>)
    requires |buf| >= 0x80 && |w1| == |w2| == |w3| == |w4| == 2
    ensures var r := Patch(Patch(Patch(Patch(buf, 0x30, w1), 0x32, w2), 0x34, w3), 0x36, w4);
            At(r, 0x30, w1) && At(r, 0x32, w2) && At(r, 0x34, w3) && At(r, 0x36, w4)
  {
    var b1 := Patch(buf, 0x30, w1);
    var b2 := Patch(b1, 0x32, w2);
    var b3 := Patch(b2, 0x34, w3);
    PatchKeepsPart(b1, 0x32, w2, 0x30, w1);
    PatchKeepsPart(b2, 0x34, w3, 0x30, w1);
    PatchKeepsPart(b3, 0x36, w4, 0x30, w1);
    PatchKeepsPart(b2, 0x34, w3, 0x32, w2);
    PatchKeepsPart(b3, 0x36, w4, 0x32, w2);
    PatchKeepsPart(b3, 0x36, w4, 0x34, w3);
  }

  lemma MailboxWords(buf: seq<byte>, sms: seq<SyncManager>)
    requires |buf| >= 0x80 && |sms| >= 2 && SyncManagerFits(sms[0]) && SyncManagerFits(sms[1])
    ensures At(WithMailboxes(buf, sms), 0x30, U16(sms[0].startAddress))
    ensures At(WithMailboxes(buf, sms), 0x32, U16(sms[0].size))
    ensures At(WithMailboxes(buf, sms), 0x34, U16(sms[1].startAddress))
    ensures At(WithMailboxes(buf, sms), 0x36, U16(sms[1].size))
  {
    FourWords(buf, U16(sms[0].startAddress), U16(sms[0].size), U16(sms[1].startAddress), U16(sms[1].size));
  }

  lemma MailboxWordKept(image: seq<byte>, d: Description, at: nat, v: int)
    requires ByteSize(d) >= 0x80 && AreaOf(image, BeforeChecksum(d))
    requires 0 <= v < 0x1_0000 && 0x30 <= at <= 0x36 && At(WithMailboxWords(d), at, U16(v))
    ensures ReadU16(image, at) == v
  {
    TailKeeps(WithMailboxWords(d), d, at, U16(v));
    KeptToTheEnd(image, BeforeChecksum(d), at, U16(v));
    ReadWritten16(image, at, v);
  }

  lemma MailboxesKept(image: seq<byte>, d: Description)
    requires ByteSize(d) >= 0x80 && AreaOf(image, BeforeChecksum(d))
    requires |d.device.sms| >= 2 && SyncManagersFit(d.device.sms)
    ensures ReadU16(image, 0x30) == d.device.sms[0].startAddress
    ensures ReadU16(image, 0x32) == d.device.sms[0].size
    ensures ReadU16(image, 0x34) == d.device.sms[1].startAddress
    ensures ReadU16(image, 0x36) == d.device.sms[1].size
  {
    var sms := d.device.sms;
    MailboxWords(Bootstrapped(d), sms);
    MailboxWordKept(image, d, 0x30, sms[0].startAddress);
    MailboxWordKept(image, d, 0x32, sms[0].size);
    MailboxWordKept(image, d, 0x34, sms[1].startAddress);
    MailboxWordKept(image, d, 0x36, sms[1].size);
  }

  /** With two sync managers the standard mailbox words are theirs, even when BootStrap is long
      enough to reach into them. */
  lemma MailboxesStored(d: Description)
    requires Buildable(d) && |d.device.sms| >= 2
    ensures ReadU16(Image(d), 0x30) == d.device.sms[0].startAddress
    ensures ReadU16(Image(d), 0x32) == d.device.sms[0].size
    ensures ReadU16(Image(d), 0x34) == d.device.sms[1].startAddress
    ensures ReadU16(Image(d), 0x36) == d.device.sms[1].size
  {
    ImageArea(d);
    MailboxesKept(Image(d), d);
  }

  lemma TailWords(buf: seq<byte>, d: Description)
    requires |buf| >= 0x80
    ensures At(WithTail(buf, d), 0x38, U16(MailboxProtocol(d.device.mailbox)))
    ensures At(WithTail(buf, d), 0x7C, U16(SizeWord(ByteSize(d)) % 0x1_0000))
    ensures At(WithTail(buf, d), 0x7E, U16(1))
  {
    ThreeWords(buf, U16(MailboxProtocol(d.device.mailbox)), U16(SizeWord(ByteSize(d)) % 0x1_0000), U16(1));
  }

  lemma ThreeWords(buf: seq<byte>, w1: seq<byte>, w2: seq<byte>, w3: seq<byte>)
    requires |buf| >= 0x80 && |w1| == |w2| == |w3| == 2
    ensures var r := Patch(Patch(Patch(buf, 0x38, w1), 0x7C, w2), 0x7E, w3);
            At(r, 0x38, w1) && At(r, 0x7C, w2) && At(r, 0x7E, w3)
  {
    var b1 := Patch(buf, 0x38, w1);
    var b2 := Patch(b1, 0x7C, w2);
    PatchKeepsPart(b1, 0x7C, w2, 0x38, w1);
    PatchKeepsPart(b2, 0x7E, w3, 0x38, w1);
    PatchKeepsPart(b2, 0x7E, w3, 0x7C, w2);
  }

  lemma TailWordKept(image: seq<byte>, d: Description, at: nat, v: int)
    requires ByteSize(d) >= 0x80 && AreaOf(image, BeforeChecksum(d))
    requires 0 <= v < 0x1_0000 && 0x10 <= at <= 0x7E && At(BeforeChecksum(d), at, U16(v))
    ensures ReadU16(image, at) == v
  {
    KeptToTheEnd(image, BeforeChecksum(d), at, U16(v));
    ReadWritten16(image, at, v);
  }

  /** Mailbox protocols, size and version. */
  lemma TailStored(d: Description)
    requires Buildable(d)
    ensures ReadU16(Image(d), 0x38) == MailboxProtocol(d.device.mailbox)
    ensures ReadU16(Image(d), 0x7C) == SizeWord(ByteSize(d)) % 0x1_0000
    ensures ReadU16(Image(d), 0x7E) == 1
  {
    ImageArea(d);
    TailWords(WithMailboxWords(d), d);
    TailWordKept(Image(d), d, 0x38, MailboxProtocol(d.device.mailbox));
    TailWordKept(Image(d), d, 0x7C, SizeWord(ByteSize(d)) % 0x1_0000);
    TailWordKept(Image(d), d, 0x7E, 1);
  }

  lemma SizeWordExact(size: int)
    requires size >= 0x80
    ensures (SizeWord(size) % 0x1_0000 + 1) * 128 == size <==> size % 128 == 0 && size <= 128 * 0x1_0000
    ensures size < 128 * 0x1_0001 ==>
              (SizeWord(size) % 0x1_0000 + 1) * 128 <= size < (SizeWord(size) % 0x1_0000 + 2) * 128
  {
    var kibits := size / 128;
    assert size * 8 / 1024 == kibits;
    assert SizeWord(size) == kibits - 1;
  }

  /** The standard's reading of the size word, (word + 1) KiBit, gives ByteSize back exactly when
      ByteSize is a whole number of KiBits that the word can hold; up to there it rounds down. */
  lemma SizeReadBack(d: Description)
    requires Buildable(d)
    ensures (ReadU16(Image(d), 0x7C) + 1) * 128 == ByteSize(d) <==>
        ByteSize(d) % 128 == 0 && ByteSize(d) <= 128 * 0x1_0000
    ensures ByteSize(d) < 128 * 0x1_0001 ==>
              (ReadU16(Image(d), 0x7C) + 1) * 128 <= ByteSize(d) < (ReadU16(Image(d), 0x7C) + 2) * 128
  {
    TailStored(d);
    AtLeastTheArea(d);
    SizeWordExact(ByteSize(d));
  }

  lemma AtLeastTheArea(d: Description)
    requires Buildable(d)
    ensures ByteSize(d) >= 0x80
  {
  }

  /** Each protocol has its own bit, so the word says exactly which protocols the mailbox has. */
  lemma ProtocolBits(m: Mailbox)
    ensures MailboxProtocol(None) == 0
    ensures var word := MailboxProtocol(Some(m));
            && (word / 0x02 % 2 == 1 <==> m.eoe) && (word / 0x04 % 2 == 1 <==> m.coe.Some?)
            && (word / 0x08 % 2 == 1 <==> m.foe) && (word / 0x10 % 2 == 1 <==> m.soe)
                && (word / 0x20 % 2 == 1 <==> m.voe)
  {
    FiveBits(if m.eoe then 1 else 0, if m.coe.Some? then 1 else 0, if m.foe then 1 else 0, if m.soe then 1 else 0,
        if m.voe then 1 else 0);
  }

  lemma FiveBits(a: nat, b: nat, c: nat, e: nat, f: nat)
    requires a < 2 && b < 2 && c < 2 && e < 2 && f < 2
    ensures var w := 2 * a + 4 * b + 8 * c + 0x10 * e + 0x20 * f;
            w / 2 % 2 == a && w / 4 % 2 == b && w / 8 % 2 == c && w / 0x10 % 2 == e && w / 0x20 % 2 == f
  {
    var w := 2 * a + 4 * b + 8 * c + 0x10 * e + 0x20 * f;
    assert w / 2 == a + 2 * b + 4 * c + 8 * e + 0x10 * f;
    assert w / 4 == b + 2 * c + 4 * e + 8 * f;
    assert w / 8 == c + 2 * e + 4 * f;
    assert w / 0x10 == e + 2 * f;
    assert w / 0x20 == f;
  }

  /** The CoE byte says exactly which of the CoE attributes are set. */
  lemma CoeBits(coe: Option<Coe>)
    ensures var b := CoeDetails(coe) as int;
            && (b % 2 == 1 <==> coe.Some?)
            && (b / 0x02 % 2 == 1 <==> coe.Some? && coe.value.sdoInfo)
                && (b / 0x04 % 2 == 1 <==> coe.Some? && coe.value.pdoAssign)
            && (b / 0x08 % 2 == 1 <==> coe.Some? && coe.value.pdoConfig)
                && (b / 0x20 % 2 == 1 <==> coe.Some? && coe.value.completeAccess)
  {
  }

  lemma Nibbles(a: nat, b: nat, c: nat, e: nat)
    requires a < 0x10 && b < 0x10 && c < 0x10 && e < 0x10
    ensures var w := a + 0x10 * b + 0x100 * c + 0x1000 * e;
            w % 0x10 == a && w / 0x10 % 0x10 == b && w / 0x100 % 0x10 == c && w / 0x1000 % 0x10 == e
  {
    var w := a + 0x10 * b + 0x100 * c + 0x1000 * e;
    assert w / 0x10 == b + 0x10 * c + 0x100 * e;
    assert w / 0x100 == c + 0x10 * e;
    assert w / 0x1000 == e;
  }

  /** The physics word has one nibble a port: 1 exactly for the ports of type Y. */
  lemma PortNibbles(physics: string, port: nat)
    requires port < 4
    ensures var w := PhysicalPorts(physics);
            (if port == 0 then w % 0x10 else if port == 1 then w / 0x10 % 0x10
             else if port == 2 then w / 0x100 % 0x10 else w / 0x1000 % 0x10)
            == if port < |physics| && physics[port] == 'Y' then 1 else 0
  {
    Nibbles(PortNibble(physics, 0), PortNibble(physics, 1), PortNibble(physics, 2), PortNibble(physics, 3));
  }

  /** The throw-away first call of build_general and the second one return the same bytes. */
  lemma BothGeneralCallsAgree(d: Description)
    requires Buildable(d)
    ensures var first := InternAll([], GeneralTexts(d.device));
            && first.Some? && GeneralFits(d.device, first.value)
            && GeneralBytes(d.device, first.value) == GeneralBytes(d.device, Table(d).value)
  {
    var texts := GeneralTexts(d.device);
    InternAllAppend([], texts, AllTexts(d)[3..]);
    assert AllTexts(d) == texts + AllTexts(d)[3..];
    var first := InternAll([], texts).value;
    InternAllLength([], texts);
    SmallTableFits(d.device, first);
    InternAllGrows([], texts);
    InternAllGrows(first, AllTexts(d)[3..]);
    assert texts[0] in texts && texts[1] in texts && texts[2] in texts;
    IndexOfStable(first, Table(d).value, texts[0]);
    IndexOfStable(first, Table(d).value, texts[1]);
    IndexOfStable(first, Table(d).value, texts[2]);
  }

  // ---------- ConfigData and BootStrap ----------

  /** What the description puts at an address of the configuration area, where no word is written over it. */
  function DataByte(d: Description, a: nat): byte {
    if 0x28 <= a < 0x28 + |BootStrap(d)| then BootStrap(d)[a - 0x28]
    else if a < |ConfigData(d)| then ConfigData(d)[a]
    else 0
  }

  /** The addresses no word is written to: before the checksum, between identity and mailboxes, and from
      the protocol word to the size word. */
  predicate DataAddress(d: Description, a: nat) {
    a < 0x0E || 0x20 <= a < (if |d.device.sms| >= 2 then 0x30 else 0x38) || 0x3A <= a < 0x7C
  }

  lemma ByteAt(buf: seq<byte>, a: nat)
    requires a < |buf|
    ensures forall b: byte :: At(buf, a, [b]) <==> buf[a] == b
  {
    forall b: byte ensures At(buf, a, [b]) <==> buf[a] == b {
      assert buf[a..a + 1] == [buf[a]];
    }
  }

  lemma IdentityKeeps(buf: seq<byte>, d: Description, a: nat, b: byte)
    requires |buf| >= 0x80 && At(buf, a, [b]) && (a < 0x10 || 0x20 <= a)
    ensures At(WithIdentity(buf, d), a, [b])
  {
    var v, p, r := U32(d.vendorId % 0x1_0000_0000), U32(d.productCode % 0x1_0000_0000),
        U32(d.revisionNo % 0x1_0000_0000);
    var b1 := Patch(buf, 0x10, v);
    var b2 := Patch(b1, 0x14, p);
    var b3 := Patch(b2, 0x18, r);
    PatchKeepsPart(buf, 0x10, v, a, [b]);
    PatchKeepsPart(b1, 0x14, p, a, [b]);
    PatchKeepsPart(b2, 0x18, r, a, [b]);
    PatchKeepsPart(b3, 0x1C, U32(0), a, [b]);
  }

  lemma SliceByte(buf: seq<byte>, offset: nat, part: seq<byte>, a: nat)
    requires offset <= |buf| && a < |buf|
    ensures a < |SliceAssign(buf, offset, part)|
    ensures SliceAssign(buf, offset, part)[a] == if offset <= a < offset + |part| then part[a - offset] else buf[a]
  {
  }

  lemma BootstrappedByte(d: Description, a: nat)
    requires ByteSize(d) >= 0x80 && a < 0x80 && (a < 0x10 || 0x20 <= a)
    ensures At(Bootstrapped(d), a, [DataByte(d, a)])
  {
    var first := SliceAssign(Blank(ByteSize(d)), 0, ConfigData(d));
    SliceByte(Blank(ByteSize(d)), 0, ConfigData(d), a);
    ByteAt(first, a);
    IdentityKeeps(first, d, a, first[a]);
    hide WithIdentity;
    hide At;
    ByteAt(Identified(d), a);
    SliceByte(Identified(d), 0x28, BootStrap(d), a);
    ByteAt(Bootstrapped(d), a);
  }

  /** Wherever no word is written, a finished image holds BootStrap where that reaches, else ConfigData padded
      with zeros. */
  lemma DataKept(d: Description, a: nat)
    requires Buildable(d) && DataAddress(d, a)
    ensures Image(d)[a] == DataByte(d, a)
  {
    AtLeastTheArea(d);
    ImageArea(d);
    DataInArea(Image(d), d, a);
  }

  lemma DataInArea(image: seq<byte>, d: Description, a: nat)
    requires ByteSize(d) >= 0x80 && AreaOf(image, BeforeChecksum(d)) && DataAddress(d, a)
    ensures image[a] == DataByte(d, a)
  {
    var b := DataByte(d, a);
    BootstrappedByte(d, a);
    hide At;
    hide DataByte;
    if |d.device.sms| >= 2 { MailboxesKeep(Bootstrapped(d), d.device.sms, a, [b]); }
    TailKeeps(WithMailboxWords(d), d, a, [b]);
    KeptToTheEnd(image, BeforeChecksum(d), a, [b]);
    ByteAt(image, a);
  }

  /** The protected bytes: the first 14 of ConfigData, padded with zeros. */
  function Protected(config: seq<byte>): seq<byte> {
    seq(14, k requires 0 <= k => if k < |config| then config[k] else 0)
  }

  /** The checksum of an image is that of the configuration data in the description. */
  lemma ChecksumOfConfigData(d: Description)
    requires Buildable(d)
    ensures Image(d)[..14] == Protected(ConfigData(d))
    ensures Image(d)[0x0E] == SiiChecksum.Checksum(AsBits(Protected(ConfigData(d)))) as int
  {
    ChecksumStored(d);
    AtLeastTheArea(d);
    ImageArea(d);
    hide Buildable;
    hide Image;
    hide ConfigData;
    ProtectedInArea(Image(d), d);
  }

  lemma ProtectedInArea(image: seq<byte>, d: Description)
    requires ByteSize(d) >= 0x80 && AreaOf(image, BeforeChecksum(d))
    ensures image[..14] == Protected(ConfigData(d))
  {
    hide BeforeChecksum;
    forall a: nat | a < 14 ensures image[a] == Protected(ConfigData(d))[a] { DataInArea(image, d, a); }
  }

  // ---------- The whole of the configuration data, in the description's own fields ----------

  /** The byte the EEPROM description puts at an address: BootStrap from 0x28 on, ConfigData elsewhere, and beyond
      both zeros in the configuration area and 0xFF behind it. */
  function EepromByte(eeprom: Option<Eeprom>, a: nat): byte {
    match eeprom
    case None => if a < 0x80 then 0 else 0xFF
    case Some(e) =>
      if 0x28 <= a < 0x28 + |e.bootStrap| then e.bootStrap[a - 0x28]
      else if a < |e.configData| then e.configData[a]
      else if a < 0x80 then 0
      else 0xFF
  }

  function Largest(a: int, b: int, c: int): int {
    var m := if a < b then b else a;
    if m < c then c else m
  }

  lemma AreaLength(d: Description)
    requires ByteSize(d) >= 0x80
    ensures |ConfigurationArea(d)| == Largest(ByteSize(d), |ConfigData(d)|, 0x28 + |BootStrap(d)|)
  {
    hide Blank;
    hide WithIdentity;
    hide WithMailboxes;
    hide WithTail;
    hide ChecksumWord;
    hide PutU16;
    hide ConfigData;
    hide BootStrap;
    hide ByteSize;
  }

  /** Behind the end marker of the categories. */
  ghost predicate BehindCategories(d: Description, a: nat)
    requires Buildable(d)
  {
    0x80 + |Tail(d, Table(d).value)| <= a < |Image(d)|
  }

  lemma ImageOverArea(d: Description)
    requires Buildable(d)
    ensures ByteSize(d) >= 0x80 && |Image(d)| == |ConfigurationArea(d)|
    ensures forall a: nat | BehindCategories(d, a) :: Image(d)[a] == ConfigurationArea(d)[a]
  {
    hide ConfigurationArea;
    hide Tail;
    hide PartsFit;
    hide ChainFits;
    hide Table;
  }

  /** The size of an image: 2048 bytes unless ByteSize says otherwise, more where ConfigData or BootStrap need it. */
  lemma ImageSize(d: Description)
    requires Buildable(d)
    ensures |Image(d)| == match d.device.eeprom
                          case None => 2048
                          case Some(e) => Largest(if e.byteSize.Some? then e.byteSize.value else 2048,
                                                  |e.configData|, 0x28 + |e.bootStrap|)
  {
    hide Buildable;
    hide Image;
    hide ConfigurationArea;
    AtLeastTheArea(d);
    ImageOverArea(d);
    AreaLength(d);
  }

  lemma BlankByte(size: nat, a: nat)
    requires a < size
    ensures Blank(size)[a] == if a < 0x80 then 0 else 0xFF
  {
  }

  lemma IdentifiedByte(d: Description, a: nat)
    requires ByteSize(d) >= 0x80 && 0x80 <= a < |Identified(d)|
    ensures Identified(d)[a] == SliceAssign(Blank(ByteSize(d)), 0, ConfigData(d))[a]
  {
    var first := SliceAssign(Blank(ByteSize(d)), 0, ConfigData(d));
    ByteAt(first, a);
    IdentityKeeps(first, d, a, first[a]);
    hide At;
    ByteAt(Identified(d), a);
  }

  lemma SliceAssignByte(buf: seq<byte>, offset: nat, part: seq<byte>, a: nat)
    requires offset <= |buf| && a < |SliceAssign(buf, offset, part)|
    ensures SliceAssign(buf, offset, part)[a] == if offset <= a < offset + |part| then part[a - offset]
                                                  else if a < |buf| then buf[a] else 0
  {
  }

  lemma AreaByteOf(d: Description, a: nat)
    requires ByteSize(d) >= 0x80 && 0x80 <= a < |ConfigurationArea(d)|
    ensures ConfigurationArea(d)[a] == if a < 0x28 + |BootStrap(d)| then BootStrap(d)[a - 0x28]
                                       else if a < |ConfigData(d)| then ConfigData(d)[a]
                                       else 0xFF
  {
    hide ConfigData;
    hide BootStrap;
    hide ByteSize;
    LaterWritesKeep(d, a);
    hide ConfigurationArea;
    SliceAssignByte(Identified(d), 0x28, BootStrap(d), a);
    if a < |Identified(d)| {
      IdentifiedByte(d, a);
      SliceAssignByte(Blank(ByteSize(d)), 0, ConfigData(d), a);
      if a < ByteSize(d) { BlankByte(ByteSize(d), a); }
    }
    hide WithIdentity;
    hide Blank;
    hide SliceAssign;
  }

  lemma AreaByte(d: Description, a: nat)
    requires ByteSize(d) >= 0x80 && 0x80 <= a < |ConfigurationArea(d)|
    ensures ConfigurationArea(d)[a] == EepromByte(d.device.eeprom, a)
  {
    AreaByteOf(d, a);
    hide ConfigurationArea;
  }

  lemma WordKeeps(buf: seq<byte>, offset: nat, value: int, a: nat)
    requires offset + 2 <= 0x80 <= a < |buf|
    ensures PutU16(buf, offset, value)[a] == buf[a]
  {
    PatchKeeps(buf, offset, U16(value % 0x1_0000), a);
  }

  lemma WordsKeep(buf: seq<byte>, d: Description, a: nat)
    requires 0x80 <= a < |buf|
    ensures WithTail(WithMailboxes(buf, d.device.sms), d)[a] == buf[a]
  {
    hide PutU16;
    var sms, b := d.device.sms, WithMailboxes(buf, d.device.sms);
    if |sms| >= 2 {
      WordKeeps(buf, 0x30, sms[0].startAddress, a);
      var b1 := PutU16(buf, 0x30, sms[0].startAddress);
      WordKeeps(b1, 0x32, sms[0].size, a);
      var b2 := PutU16(b1, 0x32, sms[0].size);
      WordKeeps(b2, 0x34, sms[1].startAddress, a);
      WordKeeps(PutU16(b2, 0x34, sms[1].startAddress), 0x36, sms[1].size, a);
    }
    var protocol := MailboxProtocol(d.device.mailbox);
    WordKeeps(b, 0x38, protocol, a);
    var b4 := PutU16(b, 0x38, protocol);
    WordKeeps(b4, 0x7C, SizeWord(ByteSize(d)), a);
    WordKeeps(PutU16(b4, 0x7C, SizeWord(ByteSize(d))), 0x7E, 1, a);
  }

  lemma LaterWritesKeep(d: Description, a: nat)
    requires ByteSize(d) >= 0x80 && 0x80 <= a < |ConfigurationArea(d)|
    ensures |ConfigurationArea(d)| == |Bootstrapped(d)| && ConfigurationArea(d)[a] == Bootstrapped(d)[a]
  {
    WordsKeep(Bootstrapped(d), d, a);
    WordKeeps(BeforeChecksum(d), 0x0E, ChecksumWord(BeforeChecksum(d)), a);
    assert ConfigurationArea(d) == PutU16(BeforeChecksum(d), 0x0E, ChecksumWord(BeforeChecksum(d)));
    hide PutU16;
    hide WithIdentity;
    hide WithMailboxes;
    hide WithTail;
    hide ChecksumWord;
  }

  /** Wherever neither a word nor a category is written, a finished image holds exactly the byte the EEPROM description
      puts there: in the configuration area and behind the end marker. */
  lemma EepromEndToEnd(d: Description, a: nat)
    requires Buildable(d) && (DataAddress(d, a) || BehindCategories(d, a))
    ensures Image(d)[a] == EepromByte(d.device.eeprom, a)
  {
    hide Buildable;
    hide Image;
    hide ConfigurationArea;
    hide Tail;
    if DataAddress(d, a) {
      DataKept(d, a);
    } else {
      ImageOverArea(d);
      AreaByte(d, a);
    }
  }
}
