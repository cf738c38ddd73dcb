/**
 Which Layer III frames decode (ISO/IEC 11172-3, section 2.4.2.7): a frame's main data
 starts main_data_begin bytes before its payload in the stream of payloads, and it may
 not start before the previous frame's main data has ended.

 What a pass can deliver is given for every stream, with resyncs and with frames that are
 placed wrong anywhere in it; a decoding pass and a counting one differ in one term.
 */
module ReservoirConformance {
  import opened BitString
  import opened SideInfo
  import opened Reservoir
  import opened FrameDecoder

  /** What a call comes upon: whether the decoder has to resync, which forgets all payloads
      so far, and the Layer III frame it works on, if it works on one. */
  datatype Event = Event(resync: bool, frame: Option<Parsed>)

  function PayloadOf(e: Event): seq<Byte> {
    if e.frame.Some? then e.frame.value.payload else []
  }

  /** The payloads of the first n events since the last resync, one after the other. */
  function Payloads(es: seq<Event>, n: nat): seq<Byte>
    requires n <= |es|
  {
    if n == 0 then [] else (if es[n - 1].resync then [] else Payloads(es, n - 1)) + PayloadOf(es[n - 1])
  }

  /** Those before event k adds its own. */
  function Before(es: seq<Event>, k: nat): seq<Byte>
    requires k < |es|
  {
    if es[k].resync then [] else Payloads(es, k)
  }

  /** Where the main data of frame k starts in that stream; negative if before it. */
  function Start(es: seq<Event>, k: nat): int
    requires k < |es| && es[k].frame.Some?
  {
    |Before(es, k)| - es[k].frame.value.begin
  }

  /** The bytes a frame's coded bits take up, the last one perhaps in part. */
  function UsedBytes(p: Parsed): nat {
    (p.partBits + 7) / 8
  }

  ghost predicate AllPartsFit(es: seq<Event>) {
    forall k :: 0 <= k < |es| && es[k].frame.Some? ==> PartsFit(es[k].frame.value)
  }

  // ----- a pass over the frames -----

  /** A frame is decoded exactly if the reservoir holds what it asks for. */
  predicate Decodes(reserv: seq<Byte>, p: Parsed) {
    p.begin <= |reserv|
  }

  /** What a frame leaves of the reservoir; only with sample output does it move past the
      coded bits. */
  function Passed(reserv: seq<Byte>, p: Parsed, pcm: bool): seq<Byte>
    requires PartsFit(p)
  {
    Leftover(MainData(reserv, p.begin, p.payload), if Decodes(reserv, p) && pcm then p.partBits else 0)
  }

  /** This is what a frame does to the decoder. */
  lemma FrameIs(dec: Dec, f: FrameData, pcm: bool)
    requires FrameOk(f) && f.parsed.Some?
    ensures var p := f.parsed.value; var out := Layer3(dec, f, pcm);
      && out.dec.reserv == Passed(dec.reserv, p, pcm)
      && (out.unit.Some? <==> Decodes(dec.reserv, p))
      && out.samples == (if Decodes(dec.reserv, p) then f.samples else 0)
      && (out.unit.Some? ==> out.unit.value.main == MainData(dec.reserv, p.begin, p.payload))
  {
  }

  /** The reservoir of a pass after the first n events. */
  function PassReservoir(es: seq<Event>, n: nat, pcm: bool): seq<Byte>
    requires n <= |es| && AllPartsFit(es)
  {
    if n == 0 then [] else
      var e, reserv := es[n - 1], if es[n - 1].resync then [] else PassReservoir(es, n - 1, pcm);
      if e.frame.Some? then Passed(reserv, e.frame.value, pcm) else reserv
  }

  /** And when event k comes to its frame. */
  function ReservoirAt(es: seq<Event>, k: nat, pcm: bool): seq<Byte>
    requires k < |es| && AllPartsFit(es)
  {
    if es[k].resync then [] else PassReservoir(es, k, pcm)
  }

  // ----- what a pass has dropped -----

  /** Main data from `start` on is still there, of `dropped` bytes of the stream none is. */
  predicate Served(dropped: nat, start: int, p: Parsed) {
    dropped <= start && p.begin <= 511
  }

  /** A frame that is served drops what lies before its main data and, when it is decoded,
      its coded bits; a frame that is not drops nothing. */
  function DroppedBy(dropped: nat, start: int, p: Parsed, pcm: bool): nat {
    if Served(dropped, start, p) then start + (if pcm then UsedBytes(p) else 0) else dropped
  }

  /** How much of the stream of payloads a pass has dropped after n events. */
  function Dropped(es: seq<Event>, n: nat, pcm: bool): nat
    requires n <= |es|
  {
    if n == 0 then 0 else
      var e, dropped := es[n - 1], if es[n - 1].resync then 0 else Dropped(es, n - 1, pcm);
      if e.frame.Some? then DroppedBy(dropped, Start(es, n - 1), e.frame.value, pcm) else dropped
  }

  /** And when event k comes to its frame. */
  function DroppedAt(es: seq<Event>, k: nat, pcm: bool): nat
    requires k < |es|
  {
    if es[k].resync then 0 else Dropped(es, k, pcm)
  }

  /** Dropping the used bytes and then all but the last 511 is dropping to the end of the
      main data in the stream of payloads. */
  lemma LeftoverInStream(stream: seq<Byte>, start: nat, main: seq<Byte>, used: nat, end: nat)
    requires start <= |stream| && main == stream[start..] && used <= 8 * |main| && end == start + (used + 7) / 8
    ensures end <= |stream| && Leftover(main, used) == TakeLast(stream[end..], 511)
  {
    assert main[(used + 7) / 8..] == stream[end..];
  }

  lemma MainInStream(history: seq<Byte>, end: nat, reserv: seq<Byte>, begin: nat, payload: seq<Byte>)
    requires end <= |history| && reserv == TakeLast(history[end..], 511) && begin <= |reserv|
    ensures MainData(reserv, begin, payload) == (history + payload)[|history| - begin..]
  {
    assert TakeLast(reserv, begin) == history[|history| - begin..];
  }

  /** A frame that asks for too much leaves everything. */
  lemma RejectedInStream(history: seq<Byte>, dropped: nat, reserv: seq<Byte>, begin: nat, payload: seq<Byte>)
    requires dropped <= |history| && reserv == TakeLast(history[dropped..], 511) && begin > |reserv|
    ensures Leftover(MainData(reserv, begin, payload), 0) == TakeLast((history + payload)[dropped..], 511)
  {
    hide TakeLast;
    WholeReservoir(reserv, begin, payload);
    var tail := history[dropped..];
    DropOfFront(history, payload, dropped);
    LastOfLast(tail, payload, 511);
  }

  lemma DropOfFront(a: seq<Byte>, b: seq<Byte>, n: nat)
    requires n <= |a|
    ensures (a + b)[n..] == a[n..] + b
  {
  }

  lemma WholeReservoir(reserv: seq<Byte>, begin: nat, payload: seq<Byte>)
    requires begin > |reserv|
    ensures Leftover(MainData(reserv, begin, payload), 0) == TakeLast(reserv + payload, 511)
  {
    var main := MainData(reserv, begin, payload);
    assert main[0..] == main;
  }

  lemma LastOfLast(tail: seq<Byte>, payload: seq<Byte>, n: nat)
    ensures TakeLast(TakeLast(tail, n) + payload, n) == TakeLast(tail + payload, n)
  {
    var s := tail + payload;
    if n < |tail| {
      var d := |tail| - n;
      assert TakeLast(tail, n) + payload == s[d..];
      assert s[d..][|payload|..] == s[d + |payload|..];
    }
  }

  /** One frame, whatever it asks for. */
  lemma FrameDrops(history: seq<Byte>, dropped: nat, reserv: seq<Byte>, p: Parsed, start: int, pcm: bool)
    requires dropped <= |history| && reserv == TakeLast(history[dropped..], 511)
    requires PartsFit(p) && start == |history| - p.begin
    ensures Decodes(reserv, p) <==> Served(dropped, start, p)
    ensures Decodes(reserv, p) ==> MainData(reserv, p.begin, p.payload) == (history + p.payload)[start..]
    ensures var next := DroppedBy(dropped, start, p, pcm);
      next <= |history + p.payload| && Passed(reserv, p, pcm) == TakeLast((history + p.payload)[next..], 511)
  {
    hide TakeLast, Leftover;
    if Decodes(reserv, p) {
      MainInStream(history, dropped, reserv, p.begin, p.payload);
      var main, used := MainData(reserv, p.begin, p.payload), if pcm then p.partBits else 0;
      LeftoverInStream(history + p.payload, start, main, used, start + (used + 7) / 8);
    } else {
      RejectedInStream(history, dropped, reserv, p.begin, p.payload);
    }
  }

  /** In every pass over every stream the reservoir is the end of the payloads since the last
      resync from what has been dropped on, 511 bytes at most. */
  lemma {:induction false} ReservoirIs(es: seq<Event>, n: nat, pcm: bool)
    requires n <= |es| && AllPartsFit(es)
    ensures Dropped(es, n, pcm) <= |Payloads(es, n)|
    ensures PassReservoir(es, n, pcm) == TakeLast(Payloads(es, n)[Dropped(es, n, pcm)..], 511)
    decreases n, 0
  {
    hide TakeLast, Passed, DroppedBy;
    if n > 0 {
      var k := n - 1;
      ReservoirAtIs(es, k, pcm);
      var history, dropped, reserv := Before(es, k), DroppedAt(es, k, pcm), ReservoirAt(es, k, pcm);
      if es[k].frame.Some? {
        FrameDrops(history, dropped, reserv, es[k].frame.value, Start(es, k), pcm);
      } else {
        assert history + [] == history;
      }
    } else {
      NothingYet();
    }
  }

  lemma NothingYet()
    ensures TakeLast([][0..], 511) == []
  {
  }

  lemma {:induction false} ReservoirAtIs(es: seq<Event>, k: nat, pcm: bool)
    requires k < |es| && AllPartsFit(es)
    ensures DroppedAt(es, k, pcm) <= |Before(es, k)|
    ensures ReservoirAt(es, k, pcm) == TakeLast(Before(es, k)[DroppedAt(es, k, pcm)..], 511)
    decreases k, 1
  {
    hide TakeLast;
    if es[k].resync { NothingYet(); } else { ReservoirIs(es, k, pcm); }
  }

  /** Frame k of a stream is decoded, or counted, exactly if nothing has been dropped from
      where its main data starts and it reaches no further back than 511 bytes; and then it
      gets exactly its own main data. */
  lemma DecodesIff(es: seq<Event>, k: nat, pcm: bool)
    requires k < |es| && AllPartsFit(es) && es[k].frame.Some?
    ensures var p, reserv := es[k].frame.value, ReservoirAt(es, k, pcm);
      && (Decodes(reserv, p) <==> Served(DroppedAt(es, k, pcm), Start(es, k), p))
      && (Decodes(reserv, p) ==>
            0 <= Start(es, k) <= |Payloads(es, k + 1)|
            && MainData(reserv, p.begin, p.payload) == Payloads(es, k + 1)[Start(es, k)..])
  {
    hide TakeLast, MainData;
    ReservoirAtIs(es, k, pcm);
    FrameDrops(Before(es, k), DroppedAt(es, k, pcm), ReservoirAt(es, k, pcm), es[k].frame.value, Start(es, k), pcm);
    assert Payloads(es, k + 1) == Before(es, k) + es[k].frame.value.payload;
  }

  // ----- a decoding pass and a counting one -----

  /** A counting pass has dropped no more than a decoding one. */
  lemma {:induction false} CountingKeepsMore(es: seq<Event>, n: nat)
    requires n <= |es|
    ensures Dropped(es, n, false) <= Dropped(es, n, true)
  {
    if n > 0 { CountingKeepsMore(es, n - 1); }
  }

  /** A frame whose main data a decoding pass has dropped in part and a counting pass has not. */
  predicate Disputed(es: seq<Event>, k: nat)
    requires k < |es|
  {
    && es[k].frame.Some? && es[k].frame.value.begin <= 511
    && DroppedAt(es, k, false) <= Start(es, k) < DroppedAt(es, k, true)
  }

  /** Exactly these frames are counted but do not decode, in any stream; none decodes that is
      not counted. */
  lemma CountedButNotDecoded(es: seq<Event>, k: nat)
    requires k < |es| && AllPartsFit(es) && es[k].frame.Some?
    ensures var p := es[k].frame.value; var decoding, counting := ReservoirAt(es, k, true), ReservoirAt(es, k, false);
      && (Decodes(counting, p) && !Decodes(decoding, p) <==> Disputed(es, k))
      && (Decodes(decoding, p) ==> Decodes(counting, p))
  {
    hide ReservoirAt, Dropped, Start;
    DecodesIff(es, k, true);
    DecodesIff(es, k, false);
    CountingKeepsMore(es, k);
  }

  // ----- what the standard asks for -----

  /** The first whole byte behind the main data of the last frame of the first n events. */
  function MainEnd(es: seq<Event>, n: nat): int
    requires n <= |es|
  {
    if n == 0 then 0
    else if es[n - 1].frame.Some? then Start(es, n - 1) + UsedBytes(es[n - 1].frame.value)
    else if es[n - 1].resync then 0 else MainEnd(es, n - 1)
  }

  /** Frame k's main data lies where the standard allows it. */
  predicate Placed(es: seq<Event>, k: nat)
    requires k < |es| && es[k].frame.Some?
  {
    (if es[k].resync then 0 else MainEnd(es, k)) <= Start(es, k) && es[k].frame.value.begin <= 511
  }

  predicate PlacedUpTo(es: seq<Event>, n: nat)
    requires n <= |es|
  {
    n == 0 || (PlacedUpTo(es, n - 1) && (es[n - 1].frame.Some? ==> Placed(es, n - 1)))
  }

  /** As long as every frame is placed right, a decoding pass has dropped all up to the end of
      the last frame's main data, and a counting pass all up to its start. */
  lemma {:induction false} PlacedDrops(es: seq<Event>, n: nat)
    requires n <= |es| && PlacedUpTo(es, n)
    ensures Dropped(es, n, true) == MainEnd(es, n)
    ensures n > 0 && es[n - 1].frame.Some? ==> Dropped(es, n, false) == Start(es, n - 1)
  {
    if n > 0 {
      PlacedDrops(es, n - 1);
      CountingKeepsMore(es, n - 1);
    }
  }

  /** The first frame that is placed wrong is the first that does not decode. */
  lemma DecodesIffPlaced(es: seq<Event>, k: nat)
    requires k < |es| && AllPartsFit(es) && es[k].frame.Some? && PlacedUpTo(es, k)
    ensures Decodes(ReservoirAt(es, k, true), es[k].frame.value) <==> Placed(es, k)
  {
    hide ReservoirAt, Dropped, Start, MainEnd;
    DecodesIff(es, k, true);
    PlacedDrops(es, k);
  }
}
