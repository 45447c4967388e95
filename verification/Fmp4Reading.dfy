/** Reading the boxes of a movie fragment (format/fmp4/fmp4io/fragment.go). */
module Fmp4Reading {
  import opened Bytes
  import opened Fmp4Boxes

  function Len4(present: bool): nat { if present then 4 else 0 }

  function Len8(present: bool): nat { if present then 8 else 0 }

  function Get4(b: seq<byte>, n: nat, present: bool): u32
    requires n + Len4(present) <= |b|
  {
    if present then U32BE(b[n..]) else 0
  }

  function Get8(b: seq<byte>, n: nat, present: bool): u64
    requires n + Len8(present) <= |b|
  {
    if present then U64BE(b[n..]) else 0
  }

  function ReadMfhd(b: seq<byte>): (r: Option<Mfhd>)
    ensures r.Some? ==> |b| >= 16
  {
    if |b| < 16 then None else Some(Mfhd(b[8], U24BE(b[9..]), U32BE(b[12..])))
  }

  function ReadTfhd(b: seq<byte>): (r: Option<Tfhd>)
    ensures r.Some? ==> |b| >= 16
  {
    if |b| < 16 then None
    else
      var flags := U24BE(b[9..]);
      var n0 := 16;
      var n1 := n0 + Len8(Has(flags, BASE_DATA_OFFSET));
      var n2 := n1 + Len4(Has(flags, STSD_ID));
      var n3 := n2 + Len4(Has(flags, DEFAULT_DURATION));
      var n4 := n3 + Len4(Has(flags, DEFAULT_SIZE));
      if |b| < n4 + Len4(Has(flags, DEFAULT_FLAGS)) then None
      else Some(Tfhd(b[8], flags, U32BE(b[12..]),
                     Get8(b, n0, Has(flags, BASE_DATA_OFFSET)), Get4(b, n1, Has(flags, STSD_ID)),
                     Get4(b, n2, Has(flags, DEFAULT_DURATION)), Get4(b, n3, Has(flags, DEFAULT_SIZE)),
                     Get4(b, n4, Has(flags, DEFAULT_FLAGS))))
  }

  function ReadTfdt(b: seq<byte>): (r: Option<Tfdt>)
    ensures r.Some? ==> |b| >= 16
  {
    if |b| < 12 || |b| < (if b[8] != 0 then 20 else 16) then None
    else Some(Tfdt(b[8], U24BE(b[9..]), if b[8] != 0 then U64BE(b[12..]) else U32BE(b[12..])))
  }

  function EntryLen(flags: u24): (n: nat) {
    Len4(Has(flags, SAMPLE_DURATION)) + Len4(Has(flags, SAMPLE_SIZE)) + Len4(Has(flags, SAMPLE_FLAGS))
        + Len4(Has(flags, SAMPLE_CTS))
  }

  function ReadEntry(b: seq<byte>, n: nat, flags: u24): Entry
    requires n + EntryLen(flags) <= |b|
  {
    var n1 := n + Len4(Has(flags, SAMPLE_DURATION));
    var n2 := n1 + Len4(Has(flags, SAMPLE_SIZE));
    var n3 := n2 + Len4(Has(flags, SAMPLE_FLAGS));
    Entry(Get4(b, n, Has(flags, SAMPLE_DURATION)), Get4(b, n1, Has(flags, SAMPLE_SIZE)),
        Get4(b, n2, Has(flags, SAMPLE_FLAGS)),
          ToI32(Get4(b, n3, Has(flags, SAMPLE_CTS))))
  }

  function ReadEntries(b: seq<byte>, n: nat, count: nat, flags: u24): Option<seq<Entry>>
    decreases count
  {
    if count == 0 then Some([])
    else if |b| < n + EntryLen(flags) then None
    else
      match ReadEntries(b, n + EntryLen(flags), count - 1, flags)
      case None => None
      case Some(more) => Some([ReadEntry(b, n, flags)] + more)
  }

  function ReadTrun(b: seq<byte>): (r: Option<Trun>)
    ensures r.Some? ==> |b| >= 16
  {
    if |b| < 16 then None
    else
      var flags := U24BE(b[9..]);
      var n1 := 16 + Len4(Has(flags, DATA_OFFSET));
      var n2 := n1 + Len4(Has(flags, FIRST_SAMPLE_FLAGS));
      if |b| < n2 then None
      else
        match ReadEntries(b, n2, U32BE(b[12..]), flags)
        case None => None
        case Some(es) =>
          Some(Trun(b[8], flags, Get4(b, 16, Has(flags, DATA_OFFSET)), Get4(b, n1, Has(flags, FIRST_SAMPLE_FLAGS)), es))
  }

  /** The boxes inside a track fragment from position n on, the last of each kind winning; boxes of other kinds are
      passed by. A box that runs past the end, and one of another kind with size 0, at which the original would stay
      for ever, cannot be read. A rest of up to eight bytes is not looked at. */
  function ReadTrafFrom(b: seq<byte>, n: nat, acc: Traf): Option<Traf>
    decreases |b| - n
  {
    if n + 8 >= |b| then Some(acc)
    else
      var tag, size := U32BE(b[n + 4..]), U32BE(b[n..]) as nat;
      if |b| < n + size then None
      else if tag == TFHD then
        var a := ReadTfhd(b[n..n + size]);
        if a.None? then None else ReadTrafFrom(b, n + size, acc.(header := a))
      else if tag == TFDT then
        var a := ReadTfdt(b[n..n + size]);
        if a.None? then None else ReadTrafFrom(b, n + size, acc.(decodeTime := a))
      else if tag == TRUN then
        var a := ReadTrun(b[n..n + size]);
        if a.None? then None else ReadTrafFrom(b, n + size, acc.(run := a))
      else if size == 0 then None
      else ReadTrafFrom(b, n + size, acc)
  }

  const NO_TRAF := Traf(None, None, None)

  function ReadTraf(b: seq<byte>): (r: Option<Traf>) { ReadTrafFrom(b, 8, NO_TRAF) }

  function ReadMoofFrom(b: seq<byte>, n: nat, acc: Moof): Option<Moof>
    decreases |b| - n
  {
    if n + 8 >= |b| then Some(acc)
    else
      var tag, size := U32BE(b[n + 4..]), U32BE(b[n..]) as nat;
      if |b| < n + size then None
      else if tag == MFHD then
        var a := ReadMfhd(b[n..n + size]);
        if a.None? then None else ReadMoofFrom(b, n + size, acc.(header := a))
      else if size == 0 then None
      else if tag == TRAF then
        var a := ReadTraf(b[n..n + size]);
        if a.None? then None else ReadMoofFrom(b, n + size, acc.(tracks := acc.tracks + [a.value]))
      else ReadMoofFrom(b, n + size, acc)
  }

  function ReadMoof(b: seq<byte>): Option<Moof> { ReadMoofFrom(b, 8, Moof(None, [])) }

  method UnmarshalTrun(b: seq<byte>) returns (a: Option<Trun>)
    ensures a == ReadTrun(b)
  {
    hide ReadEntries, ReadEntry, Has, U32BE, U24BE;
    if |b| < 16 {
      return None;
    }
    var version, flags, count: nat := b[8], U24BE(b[9..]), U32BE(b[12..]);
    var n := 16;
    var dataOffset, firstSampleFlags := 0, 0;
    if Has(flags, DATA_OFFSET) {
      if |b| < n + 4 {
        return None;
      }
      dataOffset := U32BE(b[n..]);
      n := n + 4;
    }
    if Has(flags, FIRST_SAMPLE_FLAGS) {
      if |b| < n + 4 {
        return None;
      }
      firstSampleFlags := U32BE(b[n..]);
      n := n + 4;
    }
    var entries := [];
    ghost var from := n;
    NextEntry(b, n, count, flags, entries);
    for i := 0 to count
      invariant n >= 16
      invariant Plus(entries, ReadEntries(b, n, count - i, flags)) == ReadEntries(b, from, count, flags)
    {
      NextEntry(b, n, count - i, flags, entries);
      if |b| < n + EntryLen(flags) {
        return None;
      }
      entries := entries + [ReadEntry(b, n, flags)];
      n := n + EntryLen(flags);
    }
    NextEntry(b, n, 0, flags, entries);
    a := Some(Trun(version, flags, dataOffset, firstSampleFlags, entries));
  }

  function Plus(es: seq<Entry>, more: Option<seq<Entry>>): Option<seq<Entry>> {
    if more.None? then None else Some(es + more.value)
  }

  lemma NextEntry(b: seq<byte>, n: nat, count: nat, flags: u24, es: seq<Entry>)
    ensures Plus([], ReadEntries(b, n, count, flags)) == ReadEntries(b, n, count, flags)
    ensures count == 0 ==> Plus(es, ReadEntries(b, n, count, flags)) == Some(es)
    ensures count > 0 && |b| < n + EntryLen(flags) ==> Plus(es, ReadEntries(b, n, count, flags)) == None
    ensures count > 0 && |b| >= n + EntryLen(flags) ==>
      Plus(es, ReadEntries(b, n, count, flags)) == Plus(es + [ReadEntry(b, n, flags)],
          ReadEntries(b, n + EntryLen(flags), count - 1, flags))
  {
    hide ReadEntry, EntryLen;
    assert es + [] == es;
    var now := ReadEntries(b, n, count, flags);
    if now.Some? {
      assert [] + now.value == now.value;
      if count > 0 {
        var e, more := ReadEntry(b, n, flags), ReadEntries(b, n + EntryLen(flags), count - 1, flags).value;
        assert es + [e] + more == es + ([e] + more);
      }
    }
  }

  method UnmarshalTraf(b: seq<byte>) returns (a: Option<Traf>)
    ensures a == ReadTraf(b)
  {
    hide ReadTfhd, ReadTfdt, ReadTrun, U32BE, U24BE;
    var n, acc := 8, NO_TRAF;
    while n + 8 < |b|
      invariant ReadTraf(b) == ReadTrafFrom(b, n, acc)
      decreases |b| - n
    {
      var tag, size := U32BE(b[n + 4..]), U32BE(b[n..]) as nat;
      if |b| < n + size {
        return None;
      }
      if tag == TFHD {
        var atom := ReadTfhd(b[n..n + size]);
        if atom.None? {
          return None;
        }
        acc := acc.(header := atom);
      } else if tag == TFDT {
        var atom := ReadTfdt(b[n..n + size]);
        if atom.None? {
          return None;
        }
        acc := acc.(decodeTime := atom);
      } else if tag == TRUN {
        var atom := UnmarshalTrun(b[n..n + size]);
        if atom.None? {
          return None;
        }
        acc := acc.(run := atom);
      } else if size == 0 {
        return None;
      }
      n := n + size;
    }
    a := Some(acc);
  }

  method UnmarshalMoof(b: seq<byte>) returns (a: Option<Moof>)
    ensures a == ReadMoof(b)
  {
    hide ReadMfhd, ReadTraf, U32BE, U24BE;
    var n, acc := 8, Moof(None, []);
    while n + 8 < |b|
      invariant ReadMoof(b) == ReadMoofFrom(b, n, acc)
      decreases |b| - n
    {
      var tag, size := U32BE(b[n + 4..]), U32BE(b[n..]) as nat;
      if |b| < n + size {
        return None;
      }
      if tag == MFHD {
        var atom := ReadMfhd(b[n..n + size]);
        if atom.None? {
          return None;
        }
        acc := acc.(header := atom);
      } else if size == 0 {
        return None;
      } else if tag == TRAF {
        var atom := UnmarshalTraf(b[n..n + size]);
        if atom.None? {
          return None;
        }
        acc := acc.(tracks := acc.tracks + [atom.value]);
      }
      n := n + size;
    }
    a := Some(acc);
  }
}
