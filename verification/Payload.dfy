/** The bytes attached to a memory write: inlined when short, a slice of the data section when long. */
module Payload {
  import opened Ranges

  /** `NoData` is the payload of the first two passes; the others are the payload of the fill pass. */
  datatype Data =
    | NoData
    | Inline(len: nat, bytes: seq<Byte>)
    | Outline(offset: nat, slice: seq<Byte>)

  const INLINE_MAX: nat := 8

  function Zeros(n: nat): seq<Byte> {
    seq(n, _ => 0)
  }

  function MakeInline(bytes: seq<Byte>): Data
    requires |bytes| <= INLINE_MAX
  {
    Inline(|bytes|, bytes + Zeros(INLINE_MAX - |bytes|))
  }

  /** `data` stands for exactly `bytes`: short payloads are inlined, long ones are not. */
  predicate Carries(data: Data, bytes: seq<Byte>) {
    match data
    case NoData => true
    case Inline(len, buf) => |buf| == INLINE_MAX && len == |bytes| <= INLINE_MAX && buf[..len] == bytes
    case Outline(_, slice) => slice == bytes && |bytes| > INLINE_MAX
  }

  /** A long payload lies where it claims to in the data section. */
  predicate InSection(data: Data, section: seq<Byte>) {
    data.Outline? ==>
      data.offset + |data.slice| <= |section| && section[data.offset..data.offset + |data.slice|] == data.slice
  }

  /** Drops `left` bytes in front and `right` bytes behind. */
  function Cut(data: Data, left: nat, right: nat): Data
    requires data.Inline? ==> |data.bytes| == INLINE_MAX && left + right < data.len <= INLINE_MAX
    requires data.Outline? ==> left + right < |data.slice|
  {
    match data
    case NoData => NoData
    case Inline(len, buf) => MakeInline(buf[left..][..len - left - right])
    case Outline(offset, slice) =>
      var rest := slice[left..][..|slice| - left - right];
      if |rest| <= INLINE_MAX then MakeInline(rest) else Outline(offset + left, rest)
  }

  lemma {:induction false} MadeInlineCarries(bytes: seq<Byte>)
    requires |bytes| <= INLINE_MAX
    ensures Carries(MakeInline(bytes), bytes)
  {
    assert (bytes + Zeros(INLINE_MAX - |bytes|))[..|bytes|] == bytes;
  }

  lemma {:induction false} SliceOfSlice(s: seq<Byte>, from: nat, to: nat, left: nat, right: nat)
    requires from <= to <= |s| && left + right <= to - from
    ensures s[from..to][left..][..to - from - left - right] == s[from + left..to - right]
  {
  }

  lemma {:induction false} CutInline(data: Data, bytes: seq<Byte>, left: nat, right: nat)
    requires data.Inline? && Carries(data, bytes) && left + right < |bytes|
    ensures Carries(Cut(data, left, right), bytes[left..|bytes| - right])
  {
    var rest := data.bytes[left..][..data.len - left - right];
    forall i | 0 <= i < |rest| ensures rest[i] == bytes[left + i] {
      assert rest[i] == data.bytes[left + i] == data.bytes[..data.len][left + i];
    }
    assert rest == bytes[left..|bytes| - right];
    MadeInlineCarries(rest);
  }

  lemma {:induction false} CutOutline(data: Data, bytes: seq<Byte>, left: nat, right: nat)
    requires data.Outline? && Carries(data, bytes) && left + right < |bytes|
    ensures Carries(Cut(data, left, right), bytes[left..|bytes| - right])
  {
    var rest := data.slice[left..][..|data.slice| - left - right];
    assert rest == bytes[left..|bytes| - right];
    if |rest| <= INLINE_MAX {
      MadeInlineCarries(rest);
    }
  }

  lemma {:induction false} CutInSection(data: Data, left: nat, right: nat, section: seq<Byte>)
    requires data.Outline? && left + right < |data.slice| && InSection(data, section)
    ensures InSection(Cut(data, left, right), section)
  {
    SliceOfSlice(section, data.offset, data.offset + |data.slice|, left, right);
  }

  /** A cut payload carries the surviving bytes and still lies in the data section. */
  lemma {:induction false} CutCarries(data: Data, bytes: seq<Byte>, left: nat, right: nat)
    requires Carries(data, bytes) && left + right < |bytes|
    ensures Carries(Cut(data, left, right), bytes[left..|bytes| - right])
    ensures forall section :: InSection(data, section) ==> InSection(Cut(data, left, right), section)
  {
    match data
    case NoData =>
    case Inline(_, _) =>
      CutInline(data, bytes, left, right);
    case Outline(_, _) =>
      CutOutline(data, bytes, left, right);
      forall section | InSection(data, section) ensures InSection(Cut(data, left, right), section) {
        CutInSection(data, left, right, section);
      }
  }

  // ---- the packed 64-bit word of a leaf ----

  const BASE: int := 0x100

  /** Little-endian value of a byte buffer. */
  function FromLittleEndian(buf: seq<Byte>): nat {
    if buf == [] then 0 else buf[0] as int + BASE * FromLittleEndian(buf[1..])
  }

  function ToLittleEndian(n: nat, len: nat): seq<Byte> {
    if len == 0 then [] else [(n % BASE) as Byte] + ToLittleEndian(n / BASE, len - 1)
  }

  lemma {:induction false} LittleEndianRoundTrip(buf: seq<Byte>)
    ensures ToLittleEndian(FromLittleEndian(buf), |buf|) == buf
  {
    if buf != [] {
      LittleEndianRoundTrip(buf[1..]);
      var rest := FromLittleEndian(buf[1..]);
      assert (buf[0] as int + BASE * rest) / BASE == rest;
      assert (buf[0] as int + BASE * rest) % BASE == buf[0] as int;
    }
  }

  lemma {:induction false} LittleEndianBound(buf: seq<Byte>)
    ensures FromLittleEndian(buf) < Power256(|buf|)
  {
    if buf != [] {
      LittleEndianBound(buf[1..]);
    }
  }

  function Power256(n: nat): nat {
    if n == 0 then 1 else BASE * Power256(n - 1)
  }

  function PackedData(data: Data): U64
    requires data.Inline? ==> |data.bytes| == INLINE_MAX
    requires data.Outline? ==> data.offset <= ADDR_MAX as int
  {
    match data
    case NoData => 0
    case Inline(_, buf) => LittleEndianBound(buf); FromLittleEndian(buf) as U64
    case Outline(offset, _) => offset as U64
  }

  /** Reads back the `len` bytes of a leaf from its packed word and the data section. */
  function LeafBytes(packed: U64, len: nat, section: seq<Byte>): (bytes: seq<Byte>)
    requires len > INLINE_MAX ==> packed as int + len <= |section|
    ensures |bytes| == len
  {
    if len <= INLINE_MAX then ToLittleEndianIs8(packed as nat); ToLittleEndian(packed as nat, INLINE_MAX)[..len]
    else section[packed as int..][..len]
  }

  lemma {:induction false} ToLittleEndianIs8(n: nat)
    ensures |ToLittleEndian(n, INLINE_MAX)| == INLINE_MAX
  {
    ToLittleEndianLength(n, INLINE_MAX);
  }

  lemma {:induction false} ToLittleEndianLength(n: nat, len: nat)
    ensures |ToLittleEndian(n, len)| == len
  {
    if len > 0 {
      ToLittleEndianLength(n / BASE, len - 1);
    }
  }

  /** The word written for a payload reads back as the bytes it carries. */
  lemma {:induction false} PackedRoundTrip(data: Data, bytes: seq<Byte>, section: seq<Byte>)
    requires !data.NoData? && Carries(data, bytes) && InSection(data, section)
    requires |section| <= ADDR_MAX as int
    ensures |bytes| > INLINE_MAX ==> PackedData(data) as int + |bytes| <= |section|
    ensures LeafBytes(PackedData(data), |bytes|, section) == bytes
  {
    match data
    case Inline(len, buf) => LittleEndianBound(buf); LittleEndianRoundTrip(buf);
    case Outline(offset, slice) =>
  }

  // ---- deduplication of long payloads inside the data section ----

  ghost function LongTotal(inserted: seq<seq<Byte>>): nat {
    if inserted == [] then 0 else LongTotal(inserted[..|inserted| - 1]) + |inserted[|inserted| - 1]|
  }

  /** Every remembered slice lies in the used part of the section and holds its key. */
  ghost predicate MemoValid(memo: map<seq<Byte>, nat>, used: seq<Byte>) {
    forall d :: d in memo ==> memo[d] + |d| <= |used| && used[memo[d]..memo[d] + |d|] == d
  }

  lemma {:induction false} MemoExtends(memo: map<seq<Byte>, nat>, used: seq<Byte>, data: seq<Byte>, longer: seq<Byte>)
    requires MemoValid(memo, used) && longer == used + data
    ensures MemoValid(memo[data := |used|], longer)
  {
    forall d | d in memo ensures longer[memo[d]..memo[d] + |d|] == d {
      assert longer[memo[d]..memo[d] + |d|] == used[memo[d]..memo[d] + |d|];
    }
    assert longer[|used|..|used| + |data|] == data;
  }

  method CopyAt(target: array<Byte>, offset: nat, data: seq<Byte>)
    requires offset + |data| <= target.Length
    modifies target
    ensures target[..offset + |data|] == old(target[..offset]) + data
  {
    forall i | 0 <= i < |data| {
      target[offset + i] := data[i];
    }
  }

  class DataDedup {
    const storage: array<Byte>
    var used: nat
    var memo: map<seq<Byte>, nat>
    ghost var inserted: seq<seq<Byte>>

    ghost predicate Valid()
      reads this, storage
    {
      used <= storage.Length && used <= LongTotal(inserted) && MemoValid(memo, storage[..used])
    }

    constructor (storage: array<Byte>)
      ensures Valid() && used == 0 && inserted == [] && this.storage == storage
    {
      this.storage := storage;
      used := 0;
      memo := map[];
      inserted := [];
    }

    /** Stores `data` once; bytes handed out earlier never change. The storage is large enough when it
        was sized, as the first pass does, by the total length of everything inserted. */
    method Insert(data: seq<Byte>) returns (offset: nat)
      requires Valid() && LongTotal(inserted) + |data| <= storage.Length
      modifies this, storage
      ensures Valid() && inserted == old(inserted) + [data]
      ensures data in memo && offset == memo[data]
      ensures storage[..used] == old(storage[..used]) + (if data in old(memo) then [] else data)
      ensures memo == old(memo)[data := offset]
    {
      assert (inserted + [data])[..|inserted|] == inserted;
      inserted := inserted + [data];
      if data in memo {
        offset := memo[data];
        assert memo[data := offset] == memo;
      } else {
        offset := Store(data);
      }
    }

    /** Puts new bytes behind those in use. */
    method Store(data: seq<Byte>) returns (offset: nat)
      requires used + |data| <= storage.Length && used + |data| <= LongTotal(inserted)
      requires MemoValid(memo, storage[..used])
      modifies this`used, this`memo, storage
      ensures Valid() && memo == old(memo)[data := offset] && storage[..used] == old(storage[..used]) + data
    {
      ghost var before := storage[..used];
      offset := used;
      CopyAt(storage, offset, data);
      used := used + |data|;
      MemoExtends(memo, before, data, storage[..used]);
      memo := memo[data := offset];
    }
  }
}
