/** The announcement of a head, as it goes to the indexer. */
module Announcements {
  import opened Wrappers
  import opened Cbor

  datatype Announcement = Announcement(cid: seq<Byte>, addrs: seq<seq<Byte>>)

  function AddrItems(addrs: seq<seq<Byte>>): seq<Item> {
    seq(|addrs|, i requires 0 <= i < |addrs| => Bytes(addrs[i]))
  }

  /** A tagged link, the addresses, and empty extra data. */
  function ItemOf(a: Announcement): Item {
    Array([Tag(42, Bytes([0] + a.cid)), Array(AddrItems(a.addrs)), Bytes([0])])
  }

  /** announcement.MarshalCBOR. */
  method MarshalCBOR(a: Announcement) returns (b: seq<Byte>)
    ensures b == Encode(ItemOf(a))
  {
    var msg := [];
    msg := msg + [Tag(42, Bytes([0] + a.cid))];
    var baddrs := [];
    for i := 0 to |a.addrs|
      invariant baddrs == AddrItems(a.addrs)[..i]
    {
      baddrs := baddrs + [Bytes(a.addrs[i])];
    }
    assert AddrItems(a.addrs)[..|a.addrs|] == AddrItems(a.addrs);
    msg := msg + [Array(baddrs)];
    msg := msg + [Bytes([0])];
    assert msg == ItemOf(a).items;
    b := Encode(Array(msg));
  }

  /* ----- The receiving side ----- */

  function Contents(items: seq<Item>): Option<seq<seq<Byte>>> {
    if items == [] then Some([])
    else
      match (items[0], Contents(items[1..]))
      case (Bytes(content), Some(rest)) => Some([content] + rest)
      case _ => None
  }

  function AnnouncementIn(i: Item): Option<Announcement> {
    if i.Array? && |i.items| == 3
       && i.items[0].Tag? && i.items[0].number == 42 && i.items[0].tagged.Bytes? && [0] <= i.items[0].tagged.content
       && i.items[1].Array? && i.items[2] == Bytes([0])
    then
      match Contents(i.items[1].items)
      case None => None
      case Some(addrs) => Some(Announcement(i.items[0].tagged.content[1..], addrs))
    else None
  }

  function Unmarshal(b: seq<Byte>): Option<(Announcement, seq<Byte>)> {
    match Decode(b)
    case None => None
    case Some((i, rest)) =>
      match AnnouncementIn(i)
      case None => None
      case Some(a) => Some((a, rest))
  }

  /** Lengths as Go's slices can have them. */
  predicate InMemory(a: Announcement) {
    |a.cid| + 1 < LIMIT && |a.addrs| < LIMIT && forall i :: 0 <= i < |a.addrs| ==> |a.addrs[i]| < LIMIT
  }

  lemma {:induction false} ContentsOfAddrs(addrs: seq<seq<Byte>>)
    ensures Contents(AddrItems(addrs)) == Some(addrs)
  {
    if addrs != [] {
      ContentsOfAddrs(addrs[1..]);
      assert AddrItems(addrs)[1..] == AddrItems(addrs[1..]);
      assert addrs == [addrs[0]] + addrs[1..];
    }
  }

  /** Every announcement comes back from its bytes, whatever follows them. */
  lemma AnnouncementRoundTrip(a: Announcement, rest: seq<Byte>)
    requires InMemory(a)
    ensures Unmarshal(Encode(ItemOf(a)) + rest) == Some((a, rest))
  {
    RoundTrip(ItemOf(a), rest);
    ContentsOfAddrs(a.addrs);
    assert ([0] + a.cid)[1..] == a.cid;
  }

  /** And bytes that come back as an announcement are the bytes that it is marshalled to. */
  lemma AnnouncementExact(b: seq<Byte>)
    requires Unmarshal(b).Some?
    ensures
      var (a, rest) := Unmarshal(b).value;
      b == Encode(ItemOf(a)) + rest
  {
    DecodeExact(b);
    var (i, rest) := Decode(b).value;
    var a := AnnouncementIn(i).value;
    AddrsOfContents(i.items[1].items);
    assert i.items[0].tagged.content == [0] + a.cid;
    assert i.items == ItemOf(a).items;
  }

  lemma {:induction false} AddrsOfContents(items: seq<Item>)
    requires Contents(items).Some?
    ensures items == AddrItems(Contents(items).value)
  {
    if items != [] {
      AddrsOfContents(items[1..]);
      assert items == [items[0]] + items[1..];
    }
  }

  /** The bytes around the variable parts: three items, tag 42 with the link's leading zero, and one
      zero byte of extra data. */
  lemma Layout(a: Announcement)
    ensures Encode(ItemOf(a)) ==
              [0x83] + (
                ([0xd8, 0x2a] + (Head(BYTES, |a.cid| + 1) + ([0] + a.cid)))
                + (Head(ARRAY, |a.addrs|) + EncodeAll(AddrItems(a.addrs)))
                + [0x41, 0])
  {
    var (link, addrs, extra) := (Tag(42, Bytes([0] + a.cid)), Array(AddrItems(a.addrs)), Bytes([0]));
    EncodeThree(link, addrs, extra);
    SmallHeads();
    hide Head, EncodeAll;
    assert Encode(extra) == [0x41, 0];
    assert Encode(link) == [0xd8, 0x2a] + (Head(BYTES, |a.cid| + 1) + ([0] + a.cid));
  }

  lemma SmallHeads()
    ensures Head(TAG, 42) == [0xd8, 0x2a] && Head(ARRAY, 3) == [0x83] && Head(BYTES, 1) == [0x41]
  {
    assert BigEndian(42, 1) == BigEndian(42 / 256, 0) + [42];
  }

  lemma EncodeThree(x: Item, y: Item, z: Item)
    ensures EncodeAll([x, y, z]) == Encode(x) + Encode(y) + Encode(z)
  {
    assert [x, y, z][1..] == [y, z] && [y, z][1..] == [z] && [z][1..] == [];
    assert EncodeAll([z]) == Encode(z) + EncodeAll([]);
    assert EncodeAll([y, z]) == Encode(y) + EncodeAll([z]);
  }

  /* ----- The bytes themselves ----- */

  function ByteString(s: seq<Byte>): seq<Byte>
    requires |s| < LIMIT
  {
    HeadBytes(0x40, |s|) + s
  }

  function ByteStrings(ss: seq<seq<Byte>>): seq<Byte>
    requires forall i :: 0 <= i < |ss| ==> |ss[i]| < LIMIT
  {
    if ss == [] then [] else ByteString(ss[0]) + ByteStrings(ss[1..])
  }

  /** An announcement's bytes, one after another. */
  function AnnouncementBytes(a: Announcement): seq<Byte>
    requires InMemory(a)
  {
    [0x83, 0xd8, 0x2a] + ByteString([0] + a.cid) + (HeadBytes(0x80, |a.addrs|) + ByteStrings(a.addrs)) + [0x41, 0]
  }

  lemma {:induction false} AddrsAreByteStrings(addrs: seq<seq<Byte>>)
    requires forall i :: 0 <= i < |addrs| ==> |addrs[i]| < LIMIT
    ensures EncodeAll(AddrItems(addrs)) == ByteStrings(addrs)
  {
    if addrs != [] {
      AddrsAreByteStrings(addrs[1..]);
      assert AddrItems(addrs)[1..] == AddrItems(addrs[1..]) && AddrItems(addrs)[0] == Bytes(addrs[0]);
      HeadIsBytes(BYTES, 0x40, |addrs[0]|);
      hide Head, HeadBytes;
    }
  }

  /** What is marshalled is those bytes. */
  lemma BytesExactly(a: Announcement)
    requires InMemory(a)
    ensures Encode(ItemOf(a)) == AnnouncementBytes(a)
  {
    Layout(a);
    HeadIsBytes(BYTES, 0x40, |a.cid| + 1);
    HeadIsBytes(ARRAY, 0x80, |a.addrs|);
    AddrsAreByteStrings(a.addrs);
    hide Encode, EncodeAll, Head, HeadBytes, ByteStrings, ItemOf;
    var link, addrs := ByteString([0] + a.cid), HeadBytes(0x80, |a.addrs|) + ByteStrings(a.addrs);
    assert [0x83] + (([0xd8, 0x2a] + link) + addrs + [0x41, 0]) == [0x83, 0xd8, 0x2a] + link + addrs + [0x41, 0];
  }
}
