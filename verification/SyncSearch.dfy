/**
 The search for the next frame (include/dr_mp3.h, `drmp3d_match_frame` and
 `drmp3d_find_frame`), against what it is meant to find: the first offset whose
 header is confirmed by the headers at the computed frame boundaries behind it.
 */
module SyncSearch {
  import opened Header

  const HDR_SIZE: nat := 4
  const SYNC_MATCHES: nat := 10

  /** The input: its header readings and its length in bytes. */
  ghost predicate Input(v: View, n: nat) {
    ViewOk(v) && |v| == if n < HDR_SIZE then 0 else n - 3
  }

  // ----- the chain of boundaries -----

  /** The m-th frame boundary behind the frame at i; once a boundary has no room for a
      header the chain stays there. */
  function Boundary(v: View, i: nat, free: nat, m: nat): nat {
    if m == 0 then i else
      var b := Boundary(v, i, free, m - 1);
      if b < |v| then b + SizeOf(v[b], free) + v[b].padding else b
  }

  /** The boundaries up to the m-th that have room for a header all match the frame's. */
  predicate MatchUpTo(v: View, i: nat, free: nat, m: nat)
    requires i < |v|
  {
    m == 0 ||
    (MatchUpTo(v, i, free, m - 1) &&
     (Boundary(v, i, free, m) < |v| ==> Compare(v[i], v[Boundary(v, i, free, m)])))
  }

  /** At least one boundary lies in the input, and none of the first ten disagrees. */
  predicate Confirmed(v: View, i: nat, free: nat)
    requires i < |v|
  {
    Boundary(v, i, free, 1) < |v| && MatchUpTo(v, i, free, SYNC_MATCHES)
  }

  lemma {:induction false} MatchDown(v: View, i: nat, free: nat, m: nat, k: nat)
    requires i < |v| && m <= k && MatchUpTo(v, i, free, k)
    ensures MatchUpTo(v, i, free, m)
  {
    if m < k { MatchDown(v, i, free, m, k - 1); }
  }

  /** Once outside, outside. */
  lemma {:induction false} StaysOutside(v: View, i: nat, free: nat, m: nat, k: nat)
    requires i < |v| && m <= k && Boundary(v, i, free, m) >= |v|
    ensures Boundary(v, i, free, k) >= |v|
    ensures MatchUpTo(v, i, free, m) ==> MatchUpTo(v, i, free, k)
  {
    if m < k { StaysOutside(v, i, free, m, k - 1); }
  }

  lemma {:induction false} FirstOutside(v: View, i: nat, free: nat, m: nat)
    requires i < |v| && 1 <= m && Boundary(v, i, free, m) < |v|
    ensures Boundary(v, i, free, 1) < |v|
  {
    if Boundary(v, i, free, 1) >= |v| {
      StaysOutside(v, i, free, 1, m);
    }
  }

  /** The m-th boundary has no room for a header, or one that matches the frame's. */
  predicate Agrees(v: View, i: nat, free: nat, m: nat)
    requires i < |v|
  {
    var b := Boundary(v, i, free, m);
    b < |v| ==> Compare(v[i], v[b])
  }

  lemma {:induction false} MatchesAre(v: View, i: nat, free: nat, k: nat)
    requires i < |v|
    ensures MatchUpTo(v, i, free, k) <==> forall m: nat | 1 <= m <= k :: Agrees(v, i, free, m)
  {
    hide Compare, Boundary;
    if k > 0 {
      MatchesAre(v, i, free, k - 1);
      assert MatchUpTo(v, i, free, k) <==> MatchUpTo(v, i, free, k - 1) && Agrees(v, i, free, k);
    }
  }

  /** drmp3d_match_frame */
  method MatchFrame(v: View, start: nat, free: nat) returns (ok: bool)
    requires start < |v|
    ensures ok == Confirmed(v, start, free)
    ensures ok == (Boundary(v, start, free, 1) < |v| && forall m: nat | 1 <= m <= 10 :: Agrees(v, start, free, m))
  {
    MatchesAre(v, start, free, 10);
    var i, nmatch := start, 0;
    while nmatch < SYNC_MATCHES
      invariant nmatch <= SYNC_MATCHES && i == Boundary(v, start, free, nmatch) < |v|
      invariant MatchUpTo(v, start, free, nmatch)
    {
      i := i + SizeOf(v[i], free) + v[i].padding;
      assert i == Boundary(v, start, free, nmatch + 1);
      if i >= |v| {
        StaysOutside(v, start, free, nmatch + 1, SYNC_MATCHES);
        if nmatch > 0 { FirstOutside(v, start, free, nmatch); }
        return nmatch > 0;
      }
      if !Compare(v[start], v[i]) {
        Mismatch(v, start, free, nmatch + 1);
        return false;
      }
      nmatch := nmatch + 1;
    }
    FirstOutside(v, start, free, SYNC_MATCHES);
    return true;
  }

  lemma Mismatch(v: View, i: nat, free: nat, m: nat)
    requires i < |v| && 1 <= m <= SYNC_MATCHES
    requires Boundary(v, i, free, m) < |v| && !Compare(v[i], v[Boundary(v, i, free, m)])
    ensures !Confirmed(v, i, free)
  {
    if MatchUpTo(v, i, free, SYNC_MATCHES) { MatchDown(v, i, free, m, SYNC_MATCHES); }
  }

  // ----- free format -----

  /** k bytes on there is a matching header, and a frame of that size behind it leads to
      another one: the two frames have the same size but for their padding. */
  predicate FreeFits(v: View, i: nat, k: nat)
    requires i + k < |v|
  {
    && Compare(v[i], v[i + k])
    && var next := i + k + (k - v[i].padding) + v[i + k].padding;
      0 <= next < |v| && Compare(v[i], v[next])
  }

  /** k is a distance the search tries, it fits, and it leaves a frame that is not empty
      without its padding. */
  predicate FreeSize(v: View, n: nat, i: nat, k: nat) {
    && HDR_SIZE <= k < MAX_FREE_FORMAT && i + 2 * k < n - HDR_SIZE
    && i + k < |v| && FreeFits(v, i, k) && k > v[i].padding
  }

  /** k is the least such distance, or 0 if there is none. */
  ghost predicate LeastFreeSize(v: View, n: nat, i: nat, k: nat) {
    && (k > 0 ==> FreeSize(v, n, i, k))
    && forall j: nat :: FreeSize(v, n, i, j) ==> 0 < k <= j
  }

  /** The loop over k. A distance equal to the padding is remembered but does not end it. */
  method DiscoverFree(v: View, n: nat, i: nat) returns (fb: nat, size: nat)
    requires Input(v, n) && i + HDR_SIZE < n
    ensures fb > 0 ==> LeastFreeSize(v, n, i, size) && fb == size - v[i].padding && size < 2304
    ensures fb == 0 ==> LeastFreeSize(v, n, i, 0) && size <= 4
  {
    var k := HDR_SIZE;
    fb, size := 0, v[i].padding;
    assert InfoOk(v[i]);
    while fb == 0 && k < MAX_FREE_FORMAT && i + 2 * k < n - HDR_SIZE
      invariant HDR_SIZE <= k <= MAX_FREE_FORMAT
      invariant fb == 0 ==> size <= 4 && forall j: nat :: j < k ==> !FreeSize(v, n, i, j)
      invariant fb > 0 ==> LeastFreeSize(v, n, i, size) && fb == size - v[i].padding
      decreases MAX_FREE_FORMAT - k
    {
      if Compare(v[i], v[i + k]) {
        var fb' := k - v[i].padding;
        var next := i + k + fb' + v[i + k].padding;
        if next + HDR_SIZE <= n && Compare(v[i], v[next]) {
          assert FreeFits(v, i, k);
          size, fb := k, fb';
        }
      }
      k := k + 1;
    }
  }

  // ----- the search -----

  /** The size a valid header at i announces: from its bitrate, or discovered. `fb` is it
      without padding, the size of a free-format frame for the chain behind it. */
  ghost predicate Candidate(v: View, n: nat, i: nat, fb: nat, size: nat)
    requires i < |v|
  {
    && v[i].valid && size == fb + v[i].padding
    && (if v[i].bytes != 0 then fb == v[i].bytes else size > 0 && LeastFreeSize(v, n, i, size))
  }

  /** A frame starts at i: it ends within the input, and the chain confirms it or it is
      the whole input. */
  ghost predicate FrameAt(v: View, n: nat, i: nat, fb: nat, size: nat)
    requires i < |v|
  {
    Candidate(v, n, i, fb, size) && i + size <= n && (Confirmed(v, i, fb) || (i == 0 && size == n))
  }

  ghost predicate NoFrame(v: View, n: nat, i: nat)
    requires i < |v|
  {
    forall fb: nat, size: nat :: !FrameAt(v, n, i, fb, size)
  }

  ghost predicate NoFrameBefore(v: View, n: nat, i: nat)
    requires i <= |v|
  {
    forall j :: 0 <= j < i ==> NoFrame(v, n, j)
  }

  lemma CandidateUnique(v: View, n: nat, i: nat, fb: nat, size: nat, fb': nat, size': nat)
    requires i < |v| && Candidate(v, n, i, fb, size) && Candidate(v, n, i, fb', size')
    ensures fb == fb' && size == size'
  {
  }

  /** The body of the search loop for one offset. */
  method TryAt(v: View, n: nat, i: nat) returns (size: nat, free: nat, ghost fb: nat)
    requires Input(v, n) && i + HDR_SIZE < n
    ensures size == 0 ==> NoFrame(v, n, i)
    ensures size > 0 ==> FrameAt(v, n, i, fb, size) && free == if v[i].bytes != 0 then 0 else fb
  {
    size, free, fb := 0, 0, 0;
    if v[i].valid {
      var frameBytes := v[i].bytes;
      var framePadded := frameBytes + v[i].padding;
      assert InfoOk(v[i]);
      if frameBytes == 0 {
        frameBytes, framePadded := DiscoverFree(v, n, i);
        free := frameBytes;
      }
      if frameBytes > 0 { assert Candidate(v, n, i, frameBytes, framePadded); }
      var confirmed := false;
      if frameBytes > 0 && i + framePadded <= n { confirmed := MatchFrame(v, i, frameBytes); }
      if confirmed || (i == 0 && framePadded == n) {
        size, fb := framePadded, frameBytes;
      } else if frameBytes > 0 {
        forall fb': nat, size': nat ensures !FrameAt(v, n, i, fb', size') {
          if Candidate(v, n, i, fb', size') { CandidateUnique(v, n, i, frameBytes, framePadded, fb', size'); }
        }
      }
    }
  }

  /** What the search reports: the first offset with a frame, its size and, if that size
      was discovered, the free-format size; or the end of the input. Offsets without a
      byte behind their header are not looked at. */
  ghost predicate Found(v: View, n: nat, i: nat, size: nat, free: nat, fb: nat) {
    if size > 0 then
      i + HDR_SIZE < n && i < |v| && NoFrameBefore(v, n, i) && FrameAt(v, n, i, fb, size) &&
      free == if v[i].bytes != 0 then 0 else fb
    else
      i == n && free == 0 && (n > HDR_SIZE ==> n - HDR_SIZE <= |v| && NoFrameBefore(v, n, n - HDR_SIZE))
  }

  /** drmp3d_find_frame, started with *free_format_bytes == 0 as its one caller does. */
  method FindFrame(v: View, n: nat) returns (i: nat, size: nat, free: nat, ghost fb: nat)
    requires Input(v, n)
    ensures Found(v, n, i, size, free, fb)
    ensures size > 0 ==> i + size <= n
    ensures size == 0 ==> i == n
  {
    i := 0;
    while i + HDR_SIZE < n
      invariant i <= |v| && NoFrameBefore(v, n, i)
      invariant n > HDR_SIZE ==> i + HDR_SIZE <= n
    {
      size, free, fb := TryAt(v, n, i);
      if size > 0 { return; }
      i := i + 1;
    }
    return n, 0, 0, 0;
  }

  /** The report is determined by the input. */
  lemma FoundUnique(v: View, n: nat, i: nat, size: nat, free: nat, fb: nat, i': nat, size': nat, free': nat, fb': nat)
    requires Input(v, n) && Found(v, n, i, size, free, fb) && Found(v, n, i', size', free', fb')
    ensures i == i' && size == size' && free == free'
  {
    if size > 0 && size' > 0 {
      NotBefore(v, n, i', i, fb, size);
      NotBefore(v, n, i, i', fb', size');
      CandidateUnique(v, n, i, fb, size, fb', size');
    } else if size > 0 {
      NotBefore(v, n, n - HDR_SIZE, i, fb, size);
    } else if size' > 0 {
      NotBefore(v, n, n - HDR_SIZE, i', fb', size');
    }
  }

  lemma NotBefore(v: View, n: nat, k: nat, i: nat, fb: nat, size: nat)
    requires k <= |v| && NoFrameBefore(v, n, k) && i < |v| && FrameAt(v, n, i, fb, size)
    ensures i >= k
  {
    if i < k { NoneEarlier(v, n, k, i, fb, size); }
  }

  lemma NoneEarlier(v: View, n: nat, k: nat, i: nat, fb: nat, size: nat)
    requires i < k <= |v| && NoFrameBefore(v, n, k)
    ensures !FrameAt(v, n, i, fb, size)
  {
    assert NoFrame(v, n, i);
  }

  /** What is found lies in the input, and something of it is always consumed. */
  lemma FoundProgress(v: View, n: nat, i: nat, size: nat, free: nat, fb: nat)
    requires Input(v, n) && n > 0 && Found(v, n, i, size, free, fb)
    ensures 0 < i + size <= n
    ensures size > 0 ==> v[i].valid && free < 2304
  {
    if size > 0 { assert InfoOk(v[i]); }
  }

  // ----- the report as a function -----

  datatype Location = Location(i: nat, size: nat, free: nat)

  ghost function SearchFrom(v: View, n: nat, i: nat): Location
    requires |v| == if n < HDR_SIZE then 0 else n - 3
    decreases n - i
  {
    if i + HDR_SIZE >= n then Location(n, 0, 0)
    else if exists fb: nat, size: nat :: FrameAt(v, n, i, fb, size) then
      var fb: nat, size: nat :| FrameAt(v, n, i, fb, size);
      Location(i, size, if v[i].bytes != 0 then 0 else fb)
    else SearchFrom(v, n, i + 1)
  }

  ghost function Search(v: View, n: nat): Location
    requires |v| == if n < HDR_SIZE then 0 else n - 3
  {
    SearchFrom(v, n, 0)
  }

  lemma {:induction false} SearchFromFound(v: View, n: nat, i: nat) returns (fb: nat)
    requires Input(v, n) && i <= |v| && (n > HDR_SIZE ==> i + HDR_SIZE <= n) && (n <= HDR_SIZE ==> i == 0)
    requires NoFrameBefore(v, n, i)
    ensures var loc := SearchFrom(v, n, i); Found(v, n, loc.i, loc.size, loc.free, fb)
    decreases n - i
  {
    hide Confirmed, LeastFreeSize;
    fb := 0;
    if i + HDR_SIZE < n {
      if exists fb: nat, size: nat :: FrameAt(v, n, i, fb, size) {
        var fb': nat, size': nat :| FrameAt(v, n, i, fb', size') &&
          SearchFrom(v, n, i) == Location(i, size', if v[i].bytes != 0 then 0 else fb');
        fb := fb';
      } else {
        assert NoFrame(v, n, i);
        fb := SearchFromFound(v, n, i + 1);
      }
    }
  }

  /** The function reports what the search finds. */
  lemma SearchIs(v: View, n: nat, i: nat, size: nat, free: nat, fb: nat)
    requires Input(v, n) && Found(v, n, i, size, free, fb)
    ensures Search(v, n) == Location(i, size, free)
  {
    var fb' := SearchFromFound(v, n, 0);
    var loc := Search(v, n);
    FoundUnique(v, n, i, size, free, fb, loc.i, loc.size, loc.free, fb');
  }
}
