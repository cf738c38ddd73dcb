/**
 The bit reservoir (include/dr_mp3.h, `drmp3_L3_save_reservoir` and
 `drmp3_L3_restore_reservoir`; ISO/IEC 11172-3, section 2.4.2.7): the bytes a frame
 leaves over are what later frames' main data begins with.
 */
module Reservoir {
  import opened BitString

  const MAX_RESERVOIR: nat := 511
  const MAX_PAYLOAD: nat := 2304

  // ----- on sequences -----

  function TakeLast(s: seq<Byte>, n: nat): (r: seq<Byte>)
    ensures |r| == if n < |s| then n else |s|
  {
    if n < |s| then s[|s| - n..] else s
  }

  predicate IsSuffix(a: seq<Byte>, b: seq<Byte>) {
    |a| <= |b| && a == b[|b| - |a|..]
  }

  /** The main data of a frame: what is asked of the reservoir, as far as it is there,
      and the frame's own payload. */
  function MainData(reserv: seq<Byte>, begin: nat, payload: seq<Byte>): seq<Byte> {
    TakeLast(reserv, begin) + payload
  }

  /** The whole bytes behind the first usedBits of the main data, 511 at most. */
  function Leftover(main: seq<Byte>, usedBits: nat): seq<Byte>
    requires usedBits <= 8 * |main|
  {
    TakeLast(main[(usedBits + 7) / 8..], MAX_RESERVOIR)
  }

  // ----- in place -----

  /** A copy to the place `at` of a buffer. */
  method Copy(buffer: array<Byte>, at: nat, bytes: seq<Byte>)
    requires at + |bytes| <= buffer.Length
    modifies buffer
    ensures buffer[..at + |bytes|] == old(buffer[..at]) + bytes
  {
    forall j | 0 <= j < |bytes| { buffer[at + j] := bytes[j]; }
    assert buffer[..at] == old(buffer[..at]);
    assert buffer[at..at + |bytes|] == bytes;
  }

  class Buffers {
    const reservBuf: array<Byte>
    const maindata: array<Byte>
    var reserv: nat

    ghost predicate Valid()
      reads this
    {
      && reservBuf != maindata && reservBuf.Length == 511 && maindata.Length == 2815
      && reserv <= MAX_RESERVOIR
    }

    function Contents(): seq<Byte>
      requires Valid()
      reads this, reservBuf
    {
      reservBuf[..reserv]
    }

    constructor ()
      ensures Valid() && reserv == 0 && fresh(reservBuf) && fresh(maindata)
    {
      reservBuf := new Byte[MAX_RESERVOIR](_ => 0);
      maindata := new Byte[MAX_RESERVOIR + MAX_PAYLOAD](_ => 0);
      reserv := 0;
    }

    constructor From(contents: seq<Byte>)
      requires |contents| <= MAX_RESERVOIR
      ensures Valid() && Contents() == contents && fresh(reservBuf) && fresh(maindata)
    {
      var buf := new Byte[MAX_RESERVOIR](_ => 0);
      forall j | 0 <= j < |contents| { buf[j] := contents[j]; }
      reservBuf, reserv := buf, |contents|;
      maindata := new Byte[MAX_RESERVOIR + MAX_PAYLOAD](_ => 0);
    }

    /** drmp3_L3_restore_reservoir: no write passes the end of maindata. */
    method Restore(begin: nat, payload: seq<Byte>) returns (have: nat, ok: bool)
      requires Valid() && |payload| <= MAX_PAYLOAD
      modifies maindata
      ensures ok == (reserv >= begin)
      ensures have + |payload| <= maindata.Length
      ensures maindata[..have + |payload|] == MainData(Contents(), begin, payload)
    {
      have := if reserv < begin then reserv else begin;
      var from := if reserv > begin then reserv - begin else 0;
      var last := reservBuf[from..from + have];
      assert last == TakeLast(Contents(), begin);
      Copy(maindata, 0, last);
      Copy(maindata, have, payload);
      ok := reserv >= begin;
    }

    /** drmp3_L3_save_reservoir, for `len` bytes of main data read up to bit `pos`. */
    method Save(len: nat, pos: nat)
      requires Valid() && len <= maindata.Length && pos <= 8 * len
      modifies this`reserv, reservBuf
      ensures Valid() && Contents() == Leftover(maindata[..len], pos)
    {
      var p := (pos + 7) / 8;
      var remains := len - p;
      if remains > MAX_RESERVOIR {
        p := p + (remains - MAX_RESERVOIR);
        remains := MAX_RESERVOIR;
      }
      ghost var main := maindata[..len];
      assert maindata[p..p + remains] == TakeLast(main[(pos + 7) / 8..], MAX_RESERVOIR);
      if remains > 0 { Copy(reservBuf, 0, maindata[p..p + remains]); }
      reserv := remains;
    }

    /** A frame's use of the reservoir: restore, read `used` bits if the reservoir
        sufficed, save. */
    method Frame(begin: nat, payload: seq<Byte>, used: nat) returns (main: seq<Byte>, ok: bool)
      requires Valid() && |payload| <= MAX_PAYLOAD && used <= 8 * (begin + |payload|)
      modifies this`reserv, reservBuf, maindata
      ensures Valid() && ok == (begin <= |old(Contents())|)
      ensures main == MainData(old(Contents()), begin, payload)
      ensures Contents() == Leftover(main, if ok then used else 0)
    {
      var have;
      have, ok := Restore(begin, payload);
      main := maindata[..have + |payload|];
      Save(have + |payload|, if ok then used else 0);
    }
  }

  // ----- laws -----

  /** The smaller reservoir's main data is a suffix of the larger one's; when it suffices
      the two are the same. */
  lemma MainDataSuffix(a: seq<Byte>, b: seq<Byte>, begin: nat, payload: seq<Byte>)
    requires IsSuffix(a, b)
    ensures IsSuffix(MainData(a, begin, payload), MainData(b, begin, payload))
    ensures |a| >= begin ==> MainData(a, begin, payload) == MainData(b, begin, payload)
  {
    var ta, tb := TakeLast(a, begin), TakeLast(b, begin);
    assert IsSuffix(ta, tb);
    assert (tb + payload)[|tb| - |ta|..] == ta + payload;
  }

  /** What is left of less is a suffix of what is left of more. */
  lemma LeftoverSuffix(a: seq<Byte>, b: seq<Byte>, usedA: nat)
    requires IsSuffix(a, b) && usedA <= 8 * |a|
    ensures IsSuffix(Leftover(a, usedA), Leftover(b, 0))
  {
    var ra := a[(usedA + 7) / 8..];
    assert IsSuffix(ra, b);
    TakeLastSuffix(ra, b, MAX_RESERVOIR);
    assert b[0..] == b;
  }

  lemma TakeLastSuffix(a: seq<Byte>, b: seq<Byte>, n: nat)
    requires IsSuffix(a, b)
    ensures IsSuffix(TakeLast(a, n), TakeLast(b, n))
  {
  }

  lemma SuffixTransitive(a: seq<Byte>, b: seq<Byte>, c: seq<Byte>)
    requires IsSuffix(a, b) && IsSuffix(b, c)
    ensures IsSuffix(a, c)
  {
  }

  /** If the reservoir ends the history of payloads, so does what is left of a frame. */
  lemma LeftoverOfHistory(history: seq<Byte>, reserv: seq<Byte>, begin: nat, payload: seq<Byte>, used: nat)
    requires IsSuffix(reserv, history) && used <= 8 * |MainData(reserv, begin, payload)|
    ensures IsSuffix(MainData(reserv, begin, payload), history + payload)
    ensures IsSuffix(Leftover(MainData(reserv, begin, payload), used), history + payload)
    ensures |Leftover(MainData(reserv, begin, payload), used)| <= MAX_RESERVOIR
  {
    var t := TakeLast(reserv, begin);
    assert IsSuffix(t, history);
    assert (history + payload)[|history| - |t|..] == t + payload;
    var main := MainData(reserv, begin, payload);
    var rest := main[(used + 7) / 8..];
    assert IsSuffix(rest, main);
    assert IsSuffix(TakeLast(rest, MAX_RESERVOIR), rest);
    SuffixTransitive(TakeLast(rest, MAX_RESERVOIR), rest, main);
    SuffixTransitive(TakeLast(rest, MAX_RESERVOIR), main, history + payload);
  }
}
