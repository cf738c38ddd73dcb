/**
 The pull loops (include/dr_mp3.h, `drmp3_decode_next_frame_ex__memory` and
 `__callbacks`, `drmp3__on_read_clamped`, `drmp3__on_seek_64`): they present the
 stream to the frame decoder until it yields samples or the stream ends.
 */
module StreamPull {
  import opened BitString
  import opened SideInfo
  import opened FrameDecoder
  import opened Numbers
  import Reservoir

  // ----- the frame decoder as the loops see it -----

  /** One call of the frame decoder as a function of its state and the bytes it is shown.
      The loops are specified over any such function that makes progress. */
  type Call = (Dec, seq<Byte>) -> (nat, Outcome)

  function Ask(call: Call, dec: Dec, mp3: seq<Byte>): (nat, Outcome) { call(dec, mp3) }

  /** Nothing but a name: proofs that need the frame decoder itself mention the call. */
  predicate Named(dec: Dec, mp3: seq<Byte>) { true }

  ghost predicate IsFrameDecoder(call: Call, pcm: bool, others: Others) {
    forall dec, mp3 {:trigger Named(dec, mp3)} :: Named(dec, mp3) ==>
      Ask(call, dec, mp3) == Decode(dec, mp3, pcm, others(mp3))
  }

  /** Every call consumes something, and no more than there is. On no bytes it clears the
      decoder and nothing comes of it. */
  ghost predicate Progresses(call: Call) {
    && (forall dec, mp3 :: Ask(call, dec, mp3).0 <= |mp3| && (|mp3| > 0 ==> Ask(call, dec, mp3).0 > 0))
    && (forall dec :: Ask(call, dec, []) == (0, Outcome(Dec(None, 0, []), 0, None)))
  }

  lemma FrameDecoderProgresses(call: Call, pcm: bool, others: Others)
    requires IsFrameDecoder(call, pcm, others)
    ensures Progresses(call)
  {
    forall dec, mp3 ensures Ask(call, dec, mp3).0 <= |mp3| && (|mp3| > 0 ==> Ask(call, dec, mp3).0 > 0) {
      assert Named(dec, mp3);
      Progress(dec, mp3, pcm, others(mp3));
    }
    forall dec ensures Ask(call, dec, []) == (0, Outcome(Dec(None, 0, []), 0, None)) {
      assert Named(dec, []);
      LocateInside(dec, []);
    }
  }

  /** There is such a function. */
  lemma TheCall(pcm: bool, others: Others) returns (call: Call)
    ensures IsFrameDecoder(call, pcm, others) && Progresses(call)
  {
    call := (dec, mp3) => Decode(dec, mp3, pcm, others(mp3));
    FrameDecoderProgresses(call, pcm, others);
  }

  /** The real call behind the function. */
  method CallOnce(dec: Dec, mp3: seq<Byte>, pcm: bool, others: Others, ghost call: Call) returns (n: nat, out: Outcome)
    requires DecOk(dec) && IsFrameDecoder(call, pcm, others)
    ensures (n, out) == Ask(call, dec, mp3) && DecOk(out.dec)
  {
    assert Named(dec, mp3);
    n, out := DecodeOn(dec, mp3, pcm, others(mp3));
  }

  /** What a pull leaves: the decoder, the bytes of the stream it stepped over, the frame. */
  datatype Pulled = Pulled(dec: Dec, consumed: nat, samples: nat, unit: Option<Unit>)

  /** A pull that starts after `before` bytes. */
  function Onward(before: nat, r: Pulled): Pulled {
    r.(consumed := before + r.consumed)
  }

  // ----- memory -----

  /** Pulling from bytes that are all there. */
  ghost function Pull(call: Call, dec: Dec, mp3: seq<Byte>): Pulled
    requires Progresses(call)
    decreases |mp3|
  {
    var (n, out) := Ask(call, dec, mp3);
    if out.samples > 0 || n == 0 then Pulled(out.dec, n, out.samples, out.unit)
    else Onward(n, Pull(call, out.dec, mp3[n..]))
  }

  /** A pull stays inside the bytes; when it yields nothing it has stepped over all of
      them, and pulling again changes nothing any more. */
  lemma {:induction false} PullEnds(call: Call, dec: Dec, mp3: seq<Byte>)
    requires Progresses(call)
    ensures var r := Pull(call, dec, mp3);
      && r.consumed <= |mp3| && (r.samples > 0 ==> r.consumed > 0)
      && (r.samples == 0 ==> r.consumed == |mp3| && Pull(call, r.dec, []) == Pulled(r.dec, 0, 0, None))
    decreases |mp3|
  {
    var (n, out) := Ask(call, dec, mp3);
    if out.samples == 0 && n > 0 {
      PullEnds(call, out.dec, mp3[n..]);
    } else if n == 0 {
      assert mp3 == [];
    }
  }

  lemma PullStep(call: Call, dec: Dec, mp3: seq<Byte>, n: nat, out: Outcome, before: nat)
    requires Progresses(call) && (n, out) == Ask(call, dec, mp3)
    ensures Onward(before, Pull(call, dec, mp3)) ==
      if out.samples > 0 || n == 0 then Pulled(out.dec, before + n, out.samples, out.unit)
      else Onward(before + n, Pull(call, out.dec, mp3[n..]))
  {
  }

  /** The loop. Whether a turn leaves it or goes on, what the frame decoder consumed is
      stepped over; an empty turn means there is nothing any more. */
  method PullLoop(dec0: Dec, mp3: seq<Byte>, pcm: bool, others: Others, ghost call: Call) returns (r: Pulled)
    requires DecOk(dec0) && IsFrameDecoder(call, pcm, others) && Progresses(call)
    ensures r == Pull(call, dec0, mp3) && DecOk(r.dec)
  {
    var pos, dec, done := 0, dec0, false;
    r := Pulled(dec0, 0, 0, None);
    while !done
      invariant pos <= |mp3| && DecOk(if done then r.dec else dec)
      invariant Pull(call, dec0, mp3) == if done then r else Onward(pos, Pull(call, dec, mp3[pos..]))
      decreases !done, |mp3| - pos
    {
      var n, out := CallOnce(dec, mp3[pos..], pcm, others, call);
      PullStep(call, dec, mp3[pos..], n, out, pos);
      if out.samples > 0 || n == 0 {
        r, done := Pulled(out.dec, pos + n, out.samples, out.unit), true;
      } else {
        assert mp3[pos..][n..] == mp3[pos + n..];
        dec, pos := out.dec, pos + n;
      }
    }
  }

  class MemoryStream {
    const data: seq<Byte>
    var dec: Dec
    var readPos: nat
    var cursor: nat
    var atEnd: bool

    ghost predicate Valid()
      reads this
    {
      readPos <= |data| && DecOk(dec)
    }

    constructor (data: seq<Byte>)
      ensures Valid() && this.data == data && readPos == 0 && cursor == 0 && !atEnd && dec == Dec(None, 0, [])
    {
      this.data := data;
      dec := Dec(None, 0, []);
      readPos, cursor, atEnd := 0, 0, false;
    }

    /** drmp3_decode_next_frame_ex__memory */
    method NextFrame(pcm: bool, others: Others, ghost call: Call) returns (samples: nat, unit: Option<Unit>)
      requires Valid() && IsFrameDecoder(call, pcm, others) && Progresses(call)
      modifies this`readPos, this`cursor, this`dec
      ensures Valid() && cursor - old(cursor) == readPos - old(readPos) >= 0
      ensures atEnd ==> samples == 0 && dec == old(dec) && readPos == old(readPos)
      ensures !atEnd ==>
        Pulled(dec, readPos - old(readPos), samples, unit) == Pull(call, old(dec), data[old(readPos)..])
      ensures !atEnd && samples == 0 ==> readPos == |data|
    {
      if atEnd { return 0, None; }
      PullEnds(call, dec, data[readPos..]);
      var r := PullLoop(dec, data[readPos..], pcm, others, call);
      samples, unit, dec := r.samples, r.unit, r.dec;
      readPos, cursor := readPos + r.consumed, cursor + r.consumed;
    }
  }

  /** The frames a byte string yields, pull after pull. */
  ghost function Frames(call: Call, dec: Dec, mp3: seq<Byte>): seq<Pulled>
    requires Progresses(call)
    decreases |mp3|
  {
    PullEnds(call, dec, mp3);
    var r := Pull(call, dec, mp3);
    if r.samples == 0 then [] else [r] + Frames(call, r.dec, mp3[r.consumed..])
  }

  // ----- callbacks -----

  const MIN_CHUNK: nat := 16384
  const CHUNK: nat := 65536

  /** A stream as a pull from a window sees it: the decoder, the bytes not yet stepped
      over, and how many of these are buffered. */
  datatype View = View(dec: Dec, rest: seq<Byte>, size: nat)

  predicate ViewOk(v: View) { v.size <= |v.rest| }

  datatype WindowPulled = WindowPulled(view: View, samples: nat, unit: Option<Unit>, atEnd: bool)

  /** The bytes shown to the frame decoder when `size` of the rest are buffered. */
  function Shown(rest: nat, size: nat): nat {
    if size < MIN_CHUNK then Min(CHUNK, rest) else size
  }

  /** One call of the frame decoder on what the window shows. */
  ghost function Turned(call: Call, v: View): (t: WindowPulled)
    requires Progresses(call) && ViewOk(v)
    ensures ViewOk(t.view) && (t.atEnd ==> t.view == v && v.rest == [])
    ensures !t.atEnd ==> |t.view.rest| < |v.rest| && t.view.rest == v.rest[|v.rest| - |t.view.rest|..]
  {
    var shown := Shown(|v.rest|, v.size);
    if shown == 0 then WindowPulled(v, 0, None, true) else
      var (n, out) := Ask(call, v.dec, v.rest[..shown]);
      WindowPulled(View(out.dec, v.rest[n..], shown - n), out.samples, out.unit, false)
  }

  /** Pulling from a stream of which only a window is shown at a time. */
  ghost function WindowPull(call: Call, v: View): WindowPulled
    requires Progresses(call) && ViewOk(v)
    decreases |v.rest|
  {
    var t := Turned(call, v);
    if t.atEnd || t.samples > 0 then t else WindowPull(call, t.view)
  }

  /** No byte is skipped or taken back: what a pull leaves is the stream from some later
      byte on. It yields nothing exactly when all of the stream has been stepped over. */
  lemma {:induction false} WindowPullEnds(call: Call, v: View)
    requires Progresses(call) && ViewOk(v)
    ensures var r := WindowPull(call, v);
      && ViewOk(r.view) && |r.view.rest| <= |v.rest| && r.view.rest == v.rest[|v.rest| - |r.view.rest|..]
      && (r.atEnd <==> r.samples == 0) && (r.atEnd ==> r.view.rest == [])
      && (!r.atEnd ==> |r.view.rest| < |v.rest|)
    decreases |v.rest|
  {
    hide Shown, Ask;
    var t := Turned(call, v);
    if !t.atEnd && t.samples == 0 { WindowPullEnds(call, t.view); }
  }

  lemma TurnedIs(call: Call, v: View, shown: nat)
    requires Progresses(call) && ViewOk(v) && shown == Shown(|v.rest|, v.size)
    ensures shown <= |v.rest|
    ensures Turned(call, v) == if shown == 0 then WindowPulled(v, 0, None, true) else
      var (n, out) := Ask(call, v.dec, v.rest[..shown]);
      WindowPulled(View(out.dec, v.rest[n..], shown - n), out.samples, out.unit, false)
  {
  }

  lemma AskedWithin(call: Call, dec: Dec, mp3: seq<Byte>)
    requires Progresses(call)
    ensures Ask(call, dec, mp3).0 <= |mp3|
  {
  }

  lemma TurnStep(call: Call, v: View, t: WindowPulled)
    requires Progresses(call) && ViewOk(v) && t == Turned(call, v)
    ensures WindowPull(call, v) == if t.atEnd || t.samples > 0 then t else WindowPull(call, t.view)
    ensures !t.atEnd ==> |t.view.rest| < |v.rest|
  {
  }

  lemma Later(s: seq<Byte>, a: nat, b: nat, k: nat, part: seq<Byte>)
    requires a + k <= b <= |s| && part == s[a..b]
    ensures s[a + k..b] == part[k..]
  {
  }

  lemma Glue(s: seq<Byte>, a: nat, b: nat, c: nat, t: seq<Byte>)
    requires a <= b <= c <= |s| && t == s[a..b] + s[b..c]
    ensures t == s[a..c]
  {
  }

  /** The stream behind the read callback, which delivers what is asked for up to its end,
      and the sliding window of it the decoder holds in memory. */
  class CallbackStream {
    const stream: seq<Byte>
    const streamLength: Option<nat>
    var pData: array<Byte>
    var dataSize: nat
    var dataConsumed: nat
    var cursor: nat
    var atEnd: bool
    var dec: Dec

    /** Where reading stops: at the end of the stream, or before a tag at its end. */
    function Limit(): nat {
      if streamLength.Some? then Min(streamLength.value, |stream|) else |stream|
    }

    /** How far the decoder has got in the stream. */
    function Position(): int
      reads this`cursor, this`dataSize
    {
      cursor - dataSize
    }

    /** The window holds the stream's bytes from the position up to the cursor. */
    ghost predicate Window()
      reads this`pData, this`dataConsumed, this`dataSize, this`cursor, pData
    {
      && (pData.Length == 0 || pData.Length == CHUNK)
      && dataConsumed + dataSize <= pData.Length && dataSize <= cursor <= Limit()
      && pData[dataConsumed..dataConsumed + dataSize] == stream[cursor - dataSize..cursor]
    }

    /** As drmp3_reset leaves it after a seek to an offset within the limit. */
    constructor (stream: seq<Byte>, streamLength: Option<nat>, offset: nat)
      requires offset <= |stream| && (streamLength.Some? ==> offset <= streamLength.value)
      ensures Window() && dataSize == 0 && cursor == offset && !atEnd && dec == Dec(None, 0, [])
      ensures this.stream == stream && this.streamLength == streamLength && fresh(pData)
    {
      this.stream, this.streamLength := stream, streamLength;
      pData := new Byte[0];
      dataSize, dataConsumed, cursor, atEnd, dec := 0, 0, offset, false, Dec(None, 0, []);
    }

    /** drmp3__on_read_clamped: how much of what is asked for will be read. */
    method ClampRead(bytesToRead: nat) returns (n: nat)
      requires cursor <= Limit()
      ensures n == Min(bytesToRead, Limit() - cursor) && cursor + n <= |stream|
      ensures streamLength.Some? ==> cursor + n <= streamLength.value
      ensures n < bytesToRead ==> cursor + n == |stream| || (streamLength.Some? && cursor + n == streamLength.value)
    {
      n := bytesToRead;
      if streamLength.Some? && n > streamLength.value - cursor { n := streamLength.value - cursor; }
      if n == 0 { return; }
      n := Min(n, |stream| - cursor);
    }

    /** Reads behind the buffered bytes. */
    method OnRead(n: nat)
      requires Window() && dataConsumed == 0 && dataSize + n <= pData.Length && cursor + n <= Limit()
      modifies this`cursor, this`dataSize, pData
      ensures Window() && dataSize == old(dataSize) + n && cursor == old(cursor) + n
    {
      assert pData[..dataSize] == stream[cursor - dataSize..cursor];
      Reservoir.Copy(pData, dataSize, stream[cursor..cursor + n]);
      Glue(stream, cursor - dataSize, cursor, cursor + n, pData[..dataSize + n]);
      cursor, dataSize := cursor + n, dataSize + n;
    }

    /** The data moved down. */
    method MoveDown()
      requires Window()
      modifies this`dataConsumed, pData
      ensures Window() && dataConsumed == 0
    {
      ghost var moved := pData[dataConsumed..dataConsumed + dataSize];
      forall j | 0 <= j < dataSize { pData[j] := pData[dataConsumed + j]; }
      dataConsumed := 0;
      assert pData[..dataSize] == moved;
    }

    /** The buffer brought to its size, unless the allocator refuses. Before there is none, so
        there is nothing to move to it. */
    method Grow(refuse: bool) returns (ok: bool)
      requires Window() && dataConsumed == 0
      modifies this`pData
      ensures Window() && ok == !(refuse && old(pData).Length < CHUNK) && (ok ==> pData.Length == CHUNK)
      ensures pData == old(pData) || fresh(pData)
    {
      if pData.Length == CHUNK { return true; }
      if refuse { return false; }
      pData := new Byte[CHUNK](_ => 0);
      ok := true;
    }

    /** What is left of the stream. */
    function Rest(): seq<Byte>
      requires dataSize <= cursor <= Limit()
      reads this`cursor, this`dataSize
    {
      stream[Position()..Limit()]
    }

    ghost function Seen(): View
      requires dataSize <= cursor <= Limit()
      reads this`dec, this`cursor, this`dataSize
    {
      View(dec, Rest(), dataSize)
    }

    /** There is no memory for the window yet, and there will be none. */
    predicate OutOfMemory(refuse: bool)
      reads this`pData
    {
      refuse && pData.Length == 0
    }

    /** The refill at the head of the loop: the position stays, the window reaches as far
        as the buffer or the stream. */
    method Refill(refuse: bool) returns (ok: bool)
      requires Window()
      modifies this`pData, this`dataSize, this`dataConsumed, this`cursor, pData
      ensures Window() && (pData == old(pData) || fresh(pData))
      ensures ok == !old(OutOfMemory(refuse)) && Rest() == old(Rest())
      ensures dataSize == if ok then Shown(|old(Rest())|, old(dataSize)) else old(dataSize)
      ensures ok ==> dataSize == if old(dataSize) < 16384 then Min(65536, |old(Rest())|) else old(dataSize)
      ensures ok ==> pData.Length > 0
    {
      ghost var at := Position();
      if dataSize < MIN_CHUNK {
        MoveDown();
        ok := Grow(refuse);
        if !ok { return; }
        var bytesRead := ClampRead(pData.Length - dataSize);
        OnRead(bytesRead);
        assert Position() == at;
      }
      ok := true;
    }

    lemma WindowShows()
      requires Window()
      ensures pData[dataConsumed..dataConsumed + dataSize] == Rest()[..dataSize]
    {
      var at, to := Position(), cursor;
      assert stream[at..Limit()][..to - at] == stream[at..to];
    }

    /** What the frame decoder took is stepped over. */
    method Consume(k: nat, dec1: Dec)
      requires Window() && k <= dataSize
      modifies this`dataSize, this`dataConsumed, this`dec
      ensures Window() && Seen() == View(dec1, old(Rest())[k..], old(dataSize) - k)
    {
      ghost var window, rest := pData[dataConsumed..dataConsumed + dataSize], Rest();
      assert pData[dataConsumed + k..dataConsumed + dataSize] == window[k..];
      Later(stream, Position(), cursor, k, window);
      Later(stream, Position(), Limit(), k, rest);
      ghost var at, from := Position() + k, dataConsumed + k;
      dec, dataConsumed, dataSize := dec1, dataConsumed + k, dataSize - k;
      assert Position() == at && dataConsumed == from && Rest() == rest[k..];
    }

    /** One turn of the loop: refill, one call of the frame decoder, the data consumed. */
    method Turn(pcm: bool, others: Others, refuse: bool, ghost call: Call)
      returns (ok: bool, ended: bool, samples: nat, unit: Option<Unit>)
      requires Window() && DecOk(dec) && IsFrameDecoder(call, pcm, others) && Progresses(call)
      modifies this`pData, this`dataSize, this`dataConsumed, this`cursor, this`dec, pData
      ensures Window() && DecOk(dec) && (pData == old(pData) || fresh(pData))
      ensures ok == !old(OutOfMemory(refuse)) && (ok ==> pData.Length > 0)
      ensures if ok then WindowPulled(Seen(), samples, unit, ended) == Turned(call, old(Seen()))
              else !ended && samples == 0 && Seen() == old(Seen())
    {
      hide IsFrameDecoder, Progresses, Turned;
      ghost var v := Seen();
      ok := Refill(refuse);
      ended, samples, unit := false, 0, None;
      if !ok { return; }
      TurnedIs(call, v, dataSize);
      if dataSize == 0 { return true, true, 0, None; }
      WindowShows();
      var k, out := CallOnce(dec, pData[dataConsumed..dataConsumed + dataSize], pcm, others, call);
      AskedWithin(call, v.dec, v.rest[..dataSize]);
      Consume(k, out.dec);
      samples, unit := out.samples, out.unit;
    }

    /** What a turn comes to, and whether there is to be another. */
    method TurnOn(pcm: bool, others: Others, refuse: bool, ghost call: Call)
      returns (ok: bool, more: bool, samples: nat, unit: Option<Unit>)
      requires Window() && DecOk(dec) && IsFrameDecoder(call, pcm, others) && Progresses(call) && !atEnd
      modifies this, pData
      ensures Window() && DecOk(dec) && (pData == old(pData) || fresh(pData))
      ensures ok == !old(OutOfMemory(refuse)) && (ok ==> !OutOfMemory(refuse))
      ensures if ok then WindowPull(call, old(Seen())) ==
                if more then WindowPull(call, Seen()) else WindowPulled(Seen(), samples, unit, atEnd)
              else !more && samples == 0 && !atEnd && Seen() == old(Seen())
      ensures more ==> samples == 0 && !atEnd && |Rest()| < |old(Rest())|
    {
      hide IsFrameDecoder, Progresses, Turned, WindowPull, DecOk;
      ghost var v := Seen();
      var ended;
      ok, ended, samples, unit := Turn(pcm, others, refuse, call);
      ghost var after := Seen();
      if ok { TurnStep(call, v, WindowPulled(after, samples, unit, ended)); }
      more, atEnd := ok && samples == 0 && !ended, ended;
      assert Seen() == after;
    }

    /** drmp3_decode_next_frame_ex__callbacks. Since a call always consumes something, the
        branch that would grow the buffer for a frame that needs more is never taken; and
        without memory for the window nothing happens, except that the data moves down in it. */
    method NextFrame(pcm: bool, others: Others, refuse: bool, ghost call: Call)
      returns (samples: nat, unit: Option<Unit>)
      requires Window() && DecOk(dec) && IsFrameDecoder(call, pcm, others) && Progresses(call)
      modifies this, pData
      ensures Window() && DecOk(dec)
      ensures old(atEnd) || old(OutOfMemory(refuse)) ==> samples == 0 && Seen() == old(Seen()) && atEnd == old(atEnd)
      ensures !old(atEnd) && !old(OutOfMemory(refuse)) ==>
        WindowPulled(Seen(), samples, unit, atEnd) == WindowPull(call, old(Seen()))
    {
      hide IsFrameDecoder, Progresses, WindowPull, DecOk;
      if atEnd { return 0, None; }
      ghost var goal, none := WindowPull(call, Seen()), OutOfMemory(refuse);
      samples, unit := 0, None;
      var more := true;
      while more
        invariant Window() && DecOk(dec) && (pData == old(pData) || fresh(pData))
        invariant more ==> OutOfMemory(refuse) == none && !atEnd
        invariant if none then samples == 0 && !atEnd && Seen() == old(Seen())
                  else goal == if more then WindowPull(call, Seen())
                               else WindowPulled(Seen(), samples, unit, atEnd)
        decreases more, |Rest()|
      {
        var ok;
        ok, more, samples, unit := TurnOn(pcm, others, refuse, call);
      }
    }
  }
}
