/**
 A stream whose frames are all there in memory and all lost behind a read callback
 (include/dr_mp3.h, `drmp3_decode_next_frame_ex__callbacks`): the search for the first of
 them takes the whole window, and the window ends inside that frame's header.
 */
module WindowEdge {
  import opened BitString
  import opened BitReader
  import opened SideInfo
  import opened Header
  import opened SyncSearch
  import opened FrameDecoder
  import opened StreamPull
  import opened Counterexamples

  // ----- a frame of zeros -----

  function Zeros(n: nat): (z: seq<Byte>)
    ensures |z| == n && forall i :: 0 <= i < n ==> z[i] == 0
  {
    seq(n, _ => 0)
  }

  function StillFrame(): (f: seq<Byte>)
    ensures |f| == 24
  {
    [HEADER.b0, HEADER.b1, HEADER.b2, HEADER.b3] + Zeros(20)
  }

  lemma {:induction false} ZeroValue(bits: Bits, from: nat, to: nat)
    requires forall i: nat :: i < to ==> BitAt(bits, i) == 0
    ensures Value(bits, from, to) == 0
  {
    if from < to { ZeroValue(bits, from, to - 1); }
  }

  lemma ZeroField(data: seq<Byte>, bytes: nat, pos: nat, n: nat)
    requires bytes <= |data| && forall i :: 0 <= i < bytes ==> data[i] == 0
    ensures F(Source(BitsOf(data), 8 * bytes), pos, n) == 0
  {
    if pos + n <= 8 * bytes {
      forall i: nat | i < pos + n ensures BitAt(BitsOf(data), i) == 0 {
        assert data[i / 8] == 0;
      }
      ZeroValue(BitsOf(data), pos, pos + n);
    }
  }

  /** Its side information asks for nothing. */
  lemma StillParse(data: seq<Byte>)
    requires |data| >= 20 && forall i :: 0 <= i < 20 ==> data[i] == 0
    ensures Parse(HEADER, data, 20).Some? && Parse(HEADER, data, 20).value.begin == 0
  {
    hide F, Granules;
    HeaderInfo();
    var s := Source(BitsOf(data), 160);
    forall pos: nat, n: nat ensures F(s, pos, n) == 0 { ZeroField(data, 20, pos, n); }
    assert PartSum(s, MONO, 0, 0) == 0 && AllOk(s, MONO, 0, 0);
    assert PartSum(s, MONO, 0, 1) == 0 && AllOk(s, MONO, 0, 1);
  }

  // ----- the stream -----

  const FRESH: Dec := Dec(None, 0, [])

  /** As many zeros as leave three bytes of the window to the first of two frames. */
  const QUIET: nat := 65533

  function Lost(): (mp3: seq<Byte>)
    ensures |mp3| == QUIET + 48
  {
    Zeros(QUIET) + StillFrame() + StillFrame()
  }

  /** Where the stream is not zero. */
  lemma LostBytes(i: nat)
    requires i < QUIET + 48
    ensures Lost()[i] == if i < QUIET then 0 else StillFrame()[(i - QUIET) % 24]
  {
  }

  /** Only a header's first byte has all bits set. */
  lemma Unsynced(v: Header.View, mp3: seq<Byte>, n: nat, i: nat)
    requires v == ViewOf(mp3) && i + 4 <= |mp3| && mp3[i] != 0xff
    ensures NoFrame(v, n, i)
  {
    hide ComputedBytes, Confirmed;
    assert !v[i].valid;
  }

  /** The frame at i is the last one, and no other one's end confirms it. */
  lemma Unconfirmed(v: Header.View, n: nat, i: nat)
    requires 0 < i < |v| && v[i].bytes == 24 && v[i].padding == 0 && i + 24 >= |v|
    ensures NoFrame(v, n, i)
  {
    hide LeastFreeSize;
    forall fb: nat, size: nat ensures !FrameAt(v, n, i, fb, size) {
      assert Boundary(v, i, fb, 0) == i;
      assert Boundary(v, i, fb, 1) == i + 24;
    }
  }

  /** The decoder takes all of an input without a frame. */
  lemma NothingFound(mp3: seq<Byte>, pcm: bool, otherOk: bool)
    requires |mp3| > HDR_SIZE && NoFrameBefore(ViewOf(mp3), |mp3|, |mp3| - HDR_SIZE)
    ensures Decode(FRESH, mp3, pcm, otherOk) == (|mp3|, Outcome(FRESH, 0, None))
  {
    hide NoFrameBefore;
    ViewIsOk(mp3);
    SearchIs(ViewOf(mp3), |mp3|, |mp3|, 0, 0, 0);
    SiteIs(FRESH, mp3, FRESH, |mp3|, 0);
    DecodeAtSite(FRESH, mp3, pcm, otherOk, SiteOf(FRESH, mp3));
  }

  /** The first window. */
  lemma FirstWindow(pcm: bool, otherOk: bool)
    ensures Decode(FRESH, Lost()[..CHUNK], pcm, otherOk) == (CHUNK, Outcome(FRESH, 0, None))
  {
    hide NoFrame, Decode, Lost;
    var mp3 := Lost()[..CHUNK];
    forall j | 0 <= j < CHUNK - HDR_SIZE ensures NoFrame(ViewOf(mp3), CHUNK, j) {
      LostBytes(j);
      Unsynced(ViewOf(mp3), mp3, CHUNK, j);
    }
    NothingFound(mp3, pcm, otherOk);
  }

  /** What the window shows next: the first frame's last bytes, and the second frame. */
  lemma SecondBytes(i: nat)
    requires i < 45
    ensures Lost()[CHUNK..][i] == StillFrame()[(i + 3) % 24]
  {
    LostBytes(CHUNK + i);
  }

  lemma SecondWindow(pcm: bool, otherOk: bool)
    ensures Decode(FRESH, Lost()[CHUNK..], pcm, otherOk) == (45, Outcome(FRESH, 0, None))
  {
    hide NoFrame, Decode, Lost, StillFrame;
    var mp3 := Lost()[CHUNK..];
    var v := ViewOf(mp3);
    forall j | 0 <= j < 41 ensures NoFrame(v, 45, j) {
      SecondBytes(j);
      if j == 21 {
        SecondHeader(mp3);
        Unconfirmed(v, 45, 21);
      } else {
        StillBytes((j + 3) % 24);
        Unsynced(v, mp3, 45, j);
      }
    }
    NothingFound(mp3, pcm, otherOk);
  }

  lemma StillBytes(i: nat)
    requires i < 24
    ensures StillFrame()[i] == 0xff <==> i == 0
    ensures i >= 4 ==> StillFrame()[i] == 0
  {
  }

  lemma SecondHeader(mp3: seq<Byte>)
    requires mp3 == Lost()[CHUNK..]
    ensures HdrAt(mp3, 21) == HEADER && ViewOf(mp3)[21].bytes == 24 && ViewOf(mp3)[21].padding == 0
  {
    SecondBytes(21);
    SecondBytes(22);
    SecondBytes(23);
    SecondBytes(24);
    HeaderAhead(mp3, 21);
  }

  // ----- the stream in memory -----

  lemma LostHeaders()
    ensures HdrAt(Lost(), QUIET) == HEADER && HdrAt(Lost(), QUIET + 24) == HEADER
  {
    hide HEADER;
    forall t | 0 <= t < 4 ensures Lost()[QUIET + t] == StillFrame()[t] && Lost()[QUIET + 24 + t] == StillFrame()[t] {
      LostBytes(QUIET + t);
      LostBytes(QUIET + 24 + t);
    }
  }

  /** In memory the second frame confirms the first. */
  lemma FrameFound(v: Header.View, n: nat, i: nat, next: nat)
    requires next == i + 24 && n == i + 48 && |v| == n - 3
    requires forall j :: j == i || j == next ==> v[j] == InfoOf(HEADER)
    ensures FrameAt(v, n, i, 24, 24)
  {
    hide LeastFreeSize;
    HeaderInfo();
    assert v[i] == v[next] == InfoOf(HEADER);
    assert Boundary(v, i, 24, 0) == i;
    assert Boundary(v, i, 24, 1) == next;
    assert Boundary(v, i, 24, 2) == n;
    assert MatchUpTo(v, i, 24, 0) && MatchUpTo(v, i, 24, 1) && MatchUpTo(v, i, 24, 2);
    StaysOutside(v, i, 24, 2, SYNC_MATCHES);
  }

  lemma LostLocated()
    ensures Locate(FRESH, ViewOf(Lost()), |Lost()|) == (FRESH, QUIET, 24)
  {
    hide Lost, NoFrame, FrameAt;
    var mp3 := Lost();
    var v, n := ViewOf(mp3), |mp3|;
    forall j | 0 <= j < QUIET ensures NoFrame(v, n, j) {
      LostBytes(j);
      Unsynced(v, mp3, n, j);
    }
    LostHeaders();
    HeaderAhead(mp3, QUIET);
    HeaderAhead(mp3, QUIET + 24);
    FrameFound(v, n, QUIET, QUIET + 24);
    ViewIsOk(mp3);
    SearchIs(v, n, QUIET, 24, 0, 24);
  }

  lemma LostFrame()
    ensures QUIET + HDR_SIZE <= |Lost()| && FrameOk(FrameAtOffset(Lost(), QUIET, 24))
    ensures var f := FrameAtOffset(Lost(), QUIET, 24);
      f.layer3 && f.samples == 576 && f.parsed.Some? && f.parsed.value.begin == 0
  {
    hide Parse, Lost;
    var data := Lost()[QUIET + HDR_SIZE..];
    forall i | 0 <= i < 20 ensures data[i] == 0 {
      LostBytes(QUIET + HDR_SIZE + i);
      StillBytes(4 + i);
    }
    LostHeaders();
    HeaderInfo();
    StillParse(data);
  }

  lemma FirstInMemory(pcm: bool, otherOk: bool)
    ensures Decode(FRESH, Lost(), pcm, otherOk).0 == QUIET + 24
    ensures Decode(FRESH, Lost(), pcm, otherOk).1.samples == 576
  {
    hide Locate, FrameAtOffset, Lost;
    LostLocated();
    LostFrame();
    SiteIs(FRESH, Lost(), FRESH, QUIET, 24);
    DecodeAtSite(FRESH, Lost(), pcm, otherOk, SiteOf(FRESH, Lost()));
  }

  // ----- two pulls -----

  /** A fresh decoder before a stream of which nothing is buffered. */
  function Before(rest: seq<Byte>): StreamPull.View {
    StreamPull.View(FRESH, rest, 0)
  }

  /** From memory the first frame comes out; behind callbacks a decoder started on the same
      stream steps over all of it and yields nothing. */
  lemma LostBehindCallbacks(call: Call, pcm: bool, others: Others)
    requires IsFrameDecoder(call, pcm, others) && Progresses(call)
    ensures Pull(call, FRESH, Lost()).samples == 576 && Pull(call, FRESH, Lost()).consumed == QUIET + 24
    ensures WindowPull(call, Before(Lost())) == WindowPulled(Before([]), 0, None, true)
  {
    hide Decode, Lost;
    var mp3 := Lost();
    assert Named(FRESH, mp3) && Named(FRESH, mp3[..CHUNK]) && Named(FRESH, mp3[CHUNK..]);
    FirstInMemory(pcm, others(mp3));
    FirstWindow(pcm, others(mp3[..CHUNK]));
    SecondWindow(pcm, others(mp3[CHUNK..]));
    ThreeTurns(call, mp3);
  }

  lemma ThreeTurns(call: Call, mp3: seq<Byte>)
    requires Progresses(call) && |mp3| == CHUNK + 45
    requires Ask(call, FRESH, mp3[..CHUNK]) == (CHUNK, Outcome(FRESH, 0, None))
    requires Ask(call, FRESH, mp3[CHUNK..]) == (45, Outcome(FRESH, 0, None))
    ensures WindowPull(call, Before(mp3)) == WindowPulled(Before([]), 0, None, true)
  {
    hide Turned, WindowPull;
    var a, b, c := Before(mp3), Before(mp3[CHUNK..]), Before([]);
    TurnedIs(call, a, CHUNK);
    TurnStep(call, a, Turned(call, a));
    assert mp3[CHUNK..][..45] == mp3[CHUNK..] && mp3[CHUNK..][45..] == [];
    TurnedIs(call, b, 45);
    TurnStep(call, b, Turned(call, b));
    TurnedIs(call, c, 0);
    TurnStep(call, c, Turned(call, c));
  }
}
