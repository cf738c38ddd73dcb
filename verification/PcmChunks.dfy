/**
 Reading in chunks (include/dr_mp3.h, `drmp3_read_pcm_frames_f32` and
 `drmp3__full_read_and_close_s16`, in the build that decodes to 16-bit samples).
 */
module PcmChunks {
  import opened BitString
  import opened Numbers
  import opened PcmReader

  // ----- chunks -----

  /** A read that gets less than it wants has reached the end: nothing moves any more. */
  lemma ShortRead(st: State, trim: Trim, n: nat, m: nat)
    requires |Delivered(st, trim, n)| < n
    ensures After(After(st, trim, n), trim, m) == After(st, trim, n)
    ensures Delivered(After(st, trim, n), trim, m) == []
  {
    if !Plays(st, trim) {
      StuckTwice(st, trim);
    } else {
      var t := Target(st.current, trim, n);
      Playing(st, trim, n, t);
      AdvanceIs(st, t);
      if t > Stop(st) {
        AdvanceOver(st, t);
        AtTheEnd(Stop(st), trim, m);
      }
    }
  }

  /** Reads from `st` that add up to `n` have come to `st1` and delivered `got`. */
  ghost predicate Got(st: State, trim: Trim, n: nat, st1: State, got: seq<PcmFrame>) {
    st1 == After(st, trim, n) && got == Delivered(st, trim, n)
  }

  lemma GotNothing(st: State, trim: Trim)
    ensures Got(st, trim, 0, st, [])
  {
    NothingPlays(st, trim, 0);
  }

  /** One more chunk; none comes of it when an earlier one fell short. */
  lemma GotChunk(st: State, trim: Trim, n: nat, st1: State, got: seq<PcmFrame>, chunk: nat, st2: State,
          pcm: seq<PcmFrame>, both: nat)
    requires Got(st, trim, n, st1, got) && Got(st1, trim, chunk, st2, pcm) && both == n + chunk
    ensures Got(st, trim, both, st2, got + pcm) && (|got| < n ==> pcm == [])
  {
    ReadSplit(st, trim, n, chunk);
    if |got| < n { ShortRead(st, trim, n, chunk); }
  }

  lemma GotFurther(st: State, trim: Trim, n: nat, m: nat, both: nat)
    requires n + m == both && |Delivered(st, trim, n)| < n
    ensures After(st, trim, both) == After(st, trim, n) && Delivered(st, trim, both) == Delivered(st, trim, n)
  {
    ReadSplit(st, trim, n, m);
    ShortRead(st, trim, n, m);
  }

  lemma GotFewer(st: State, trim: Trim, n: nat, m: nat, both: nat, got: seq<PcmFrame>)
    requires n + m == both && got == Delivered(st, trim, both) && |got| < n
    ensures After(st, trim, n) == After(st, trim, both) && Delivered(st, trim, n) == got
  {
    ReadSplit(st, trim, n, m);
    GotFurther(st, trim, n, m, both);
  }

  /** Having asked for `asked` and got less, there is nothing to be had beyond. */
  lemma GotAll(st: State, trim: Trim, asked: nat, n: nat, st1: State, got: seq<PcmFrame>)
    requires Got(st, trim, asked, st1, got) && |got| < asked && |got| < n
    ensures Got(st, trim, n, st1, got)
  {
    if n < asked {
      GotFewer(st, trim, n, asked - n, asked, got);
    } else {
      GotFurther(st, trim, asked, n - asked, n);
    }
  }

  // ----- conversion -----

  type FloatFrame = seq<real>

  /** The constant is 1 / 32768. */
  function ToFloat(x: int): (r: real)
    ensures r * 32768.0 == x as real
  {
    x as real * 0.000030517578125
  }

  function ConvertFrame(frame: PcmFrame): FloatFrame { seq(|frame|, i requires 0 <= i < |frame| => ToFloat(frame[i])) }

  /** Element-wise conversion. */
  function Convert(pcm: seq<PcmFrame>): (r: seq<FloatFrame>)
    ensures |r| == |pcm|
  {
    seq(|pcm|, i requires 0 <= i < |pcm| => ConvertFrame(pcm[i]))
  }

  lemma ConvertJoin(a: seq<PcmFrame>, b: seq<PcmFrame>)
    ensures Convert(a + b) == Convert(a) + Convert(b)
  {
  }

  lemma FillOne<T>(buffer: seq<T>, at: nat, pcm: seq<T>, x: T)
    requires at + |pcm| < |buffer|
    ensures Fill(buffer, at, pcm)[at + |pcm| := x] == Fill(buffer, at, pcm + [x])
  {
  }

  /** drmp3_s16_to_f32 */
  method S16ToF32(dst: array<FloatFrame>, at: nat, src: array<PcmFrame>, count: nat)
    requires count <= src.Length && at + count <= dst.Length
    modifies dst
    ensures dst[..] == Fill(old(dst[..]), at, Convert(src[..count]))
  {
    ghost var before, pcm := dst[..], src[..count];
    var i := 0;
    while i < count
      invariant i <= count && dst[..] == Fill(before, at, Convert(pcm[..i]))
    {
      FillOne(before, at, Convert(pcm[..i]), ConvertFrame(pcm[i]));
      assert Convert(pcm[..i + 1]) == Convert(pcm[..i]) + [ConvertFrame(pcm[i])];
      dst[at + i] := ConvertFrame(src[i]);
      i := i + 1;
    }
    assert pcm[..count] == pcm;
  }

  /** One chunk read into the temporary buffer. */
  method ReadChunk(r: Reader, chunk: nat, temp: array<PcmFrame>) returns (count: nat, ghost pcm: seq<PcmFrame>)
    requires r.Valid() && chunk <= temp.Length
    modifies r, temp
    ensures r.Valid() && Got(old(r.Now()), r.trim, chunk, r.Now(), pcm) && count == |pcm| <= chunk
    ensures temp[..count] == pcm
  {
    pcm := Delivered(r.Now(), r.trim, chunk);
    count := r.ReadRaw(chunk, temp);
  }

  /** A chunk read and converted. */
  method ConvertChunk(r: Reader, chunk: nat, temp: array<PcmFrame>, out: array<FloatFrame>, at: nat)
    returns (count: nat, ghost pcm: seq<PcmFrame>)
    requires r.Valid() && chunk <= temp.Length && at + chunk <= out.Length
    modifies r, temp, out
    ensures r.Valid() && Got(old(r.Now()), r.trim, chunk, r.Now(), pcm) && count == |pcm| <= chunk
    ensures out[..] == Fill(old(out[..]), at, Convert(pcm))
  {
    count, pcm := ReadChunk(r, chunk, temp);
    S16ToF32(out, at, temp, count);
  }

  /** Asked for `asked` so far, got `got` of the `n` wanted; `more` may be had. */
  ghost predicate Chunks(asked: nat, got: nat, n: nat, more: bool) {
    if more then got == asked <= n || (got < asked && got < n) else got < asked && got < n
  }

  const F32_SAMPLES: nat := 8192

  /** drmp3_read_pcm_frames_f32: a read as large as the caller's, in chunks of as many PCM
      frames as 8192 samples make, converted. */
  method ReadF32(r: Reader, n: nat, out: array<FloatFrame>, channels: nat)
    returns (total: nat, ghost got: seq<PcmFrame>)
    requires r.Valid() && n <= out.Length && 0 < channels <= F32_SAMPLES
    modifies r, out
    ensures r.Valid() && Got(old(r.Now()), r.trim, n, r.Now(), got) && total == |got| <= n
    ensures out[..] == Fill(old(out[..]), 0, Convert(got))
  {
    var temp := new PcmFrame[F32_SAMPLES / channels](_ => []);
    assert temp.Length > 0;
    ghost var st, before, asked: nat := r.Now(), out[..], 0;
    got, total := [], 0;
    GotNothing(st, r.trim);
    var more := true;
    while total < n && more
      invariant r.Valid() && |got| == total && Chunks(asked, total, n, more)
      invariant Got(st, r.trim, asked, r.Now(), got) && out[..] == Fill(before, 0, Convert(got))
      decreases more, n - total
    {
      ghost var st1 := r.Now();
      var framesToReadNow := Min(temp.Length, n - total);
      var count, pcm := ConvertChunk(r, framesToReadNow, temp, out, total);
      ConvertJoin(got, pcm);
      FillTwice(before, Convert(got), Convert(pcm));
      ghost var asked1 := asked + framesToReadNow;
      GotChunk(st, r.trim, asked, st1, got, framesToReadNow, r.Now(), pcm, asked1);
      got, asked, total, more := got + pcm, asked1, total + count, count > 0;
    }
    if asked != total { GotAll(st, r.trim, asked, n, r.Now(), got); }
  }

  // ----- reading all of it -----

  /** All that reading on can deliver. */
  function Everything(st: State, trim: Trim): seq<PcmFrame> {
    Delivered(st, trim, |Rest(st)| + 1)
  }

  /** From the start, that is the music. */
  lemma EverythingIs(st: State, trim: Trim)
    requires st.current == 0
    ensures Everything(st, trim) == Music(trim, Rest(st))
  {
    ReadFromStart(st, trim, |Rest(st)| + 1);
  }

  lemma DeliveredFits(st: State, trim: Trim, n: nat)
    ensures |Delivered(st, trim, n)| <= |Rest(st)|
  {
  }

  /** A read that falls short has delivered everything. */
  lemma ShortIsEverything(st: State, trim: Trim, asked: nat, st1: State, got: seq<PcmFrame>)
    requires Got(st, trim, asked, st1, got) && |got| < asked
    ensures got == Everything(st, trim)
  {
    DeliveredFits(st, trim, asked);
    GotAll(st, trim, asked, |Rest(st)| + 1, st1, got);
  }

  /** What has been got is the beginning of everything. */
  lemma GotBeginning(st: State, trim: Trim, asked: nat, st1: State, got: seq<PcmFrame>)
    requires Got(st, trim, asked, st1, got)
    ensures got <= Everything(st, trim)
  {
    var all := |Rest(st)| + 1;
    if asked <= all {
      var m := all - asked;
      ReadSplit(st, trim, asked, m);
    } else {
      DeliveredFits(st, trim, asked);
      ShortIsEverything(st, trim, asked, st1, got);
    }
  }

  /** How reading all of it can end: the size limit and the allocator may say no. */
  datatype Status = Complete | TooBig | NoMemory

  /** The capacity doubled, or brought to what is needed. */
  function NewCapacity(capacity: nat, needed: nat): nat { if capacity * 2 < needed then needed else capacity * 2 }

  /** The capacity once there is room for `needed` PCM frames. */
  function Capacity(capacity: nat, needed: nat): (c: nat)
    ensures needed <= c && (c == capacity || (2 * capacity <= c <= 2 * needed))
  {
    if needed <= capacity then capacity else NewCapacity(capacity, needed)
  }

  /** Whether there can be. */
  function Room(capacity: nat, needed: nat, frameBytes: nat, sizeMax: nat, refuse: bool): Status {
    if needed <= capacity then Complete
    else if NewCapacity(capacity, needed) * frameBytes > sizeMax then TooBig
    else if refuse then NoMemory else Complete
  }

  /** realloc, which moves the `old.Length` PCM frames that were allocated. */
  method Reallocate(old1: array<PcmFrame>, capacity: nat) returns (r: array<PcmFrame>)
    requires old1.Length <= capacity
    ensures fresh(r) && r.Length == capacity && r[..old1.Length] == old1[..]
  {
    r := new PcmFrame[capacity](_ => []);
    forall i | 0 <= i < old1.Length { r[i] := old1[i]; }
  }

  /** Room for `needed` PCM frames. */
  method MakeRoom(frames: array<PcmFrame>, needed: nat, frameBytes: nat, sizeMax: nat, refuse: bool)
    returns (r: array<PcmFrame>, status: Status)
    requires frames.Length < needed
    ensures status == Room(frames.Length, needed, frameBytes, sizeMax, refuse)
    ensures status.Complete? ==>
      fresh(r) && r.Length == Capacity(frames.Length, needed) && r[..frames.Length] == frames[..]
    ensures !status.Complete? ==> r == frames
  {
    var newFramesCap := NewCapacity(frames.Length, needed);
    if newFramesCap * frameBytes > sizeMax { return frames, TooBig; }
    if refuse { return frames, NoMemory; }
    r := Reallocate(frames, newFramesCap);
    status := Complete;
  }

  method CopyIn(frames: array<PcmFrame>, total: nat, temp: array<PcmFrame>, count: nat)
    requires total + count <= frames.Length && count <= temp.Length && frames != temp
    modifies frames
    ensures frames[..total + count] == old(frames[..total]) + temp[..count]
  {
    forall j | total <= j < total + count { frames[j] := temp[j - total]; }
    assert frames[..total] == old(frames[..total]);
    assert frames[total..total + count] == temp[..count];
  }

  /** `count` PCM frames appended to the `total` the buffer holds. */
  method Append(frames: array<PcmFrame>, total: nat, temp: array<PcmFrame>, count: nat, needed: nat,
                frameBytes: nat, sizeMax: nat, refuse: bool)
    returns (r: array<PcmFrame>, status: Status)
    requires total <= frames.Length && count <= temp.Length && frames != temp && needed == total + count
    modifies frames
    ensures status == Room(frames.Length, needed, frameBytes, sizeMax, refuse)
    ensures status.Complete? ==> (r == frames || fresh(r)) && r.Length == Capacity(frames.Length, needed)
    ensures status.Complete? ==> r[..needed] == old(frames[..total]) + temp[..count]
    ensures !status.Complete? ==> r == frames && r[..] == old(frames[..])
  {
    r, status := frames, Complete;
    ghost var held := frames[..total];
    if frames.Length < needed {
      r, status := MakeRoom(frames, needed, frameBytes, sizeMax, refuse);
      if !status.Complete? { return; }
      assert r[..total] == r[..frames.Length][..total] == held;
    }
    CopyIn(r, total, temp, count);
  }

  // ----- the capacity in closed form -----

  /** c doubled until it is at least n. */
  function Doubled(c: nat, n: nat): nat
    requires c > 0
    decreases n - c
  {
    if n <= c then c else Doubled(2 * c, n)
  }

  /** The capacity in which n PCM frames end up when they come in chunks of t. */
  function Cap(t: nat, n: nat): nat
    requires t > 0
  {
    if n <= t then n else Doubled(t, n)
  }

  lemma {:induction false} DoubledHolds(c: nat, n: nat)
    requires c > 0
    ensures n <= Doubled(c, n) && c <= Doubled(c, n)
    decreases n - c
  {
    if c < n { DoubledHolds(2 * c, n); }
  }

  /** Doubling on comes to the same as doubling. */
  lemma {:induction false} DoubledOn(c: nat, n: nat, m: nat)
    requires c > 0 && n <= m
    ensures Doubled(c, n) > 0 && Doubled(c, m) == Doubled(Doubled(c, n), m)
    decreases n - c
  {
    if c < n { DoubledOn(2 * c, n, m); }
  }

  /** The k-th doubling is the first that reaches n. */
  lemma {:induction false} Doublings(c: nat, n: nat, k: nat)
    requires c > 0 && n <= c * Pow2(k) && (k > 0 ==> c * Pow2(k - 1) < n)
    ensures Doubled(c, n) == c * Pow2(k)
    decreases k
  {
    if k > 0 {
      FirstDoubling(c, n, k);
      Doublings(2 * c, n, k - 1);
    }
  }

  lemma FirstDoubling(c: nat, n: nat, k: nat)
    requires k > 0 && c * Pow2(k - 1) < n
    ensures c < n && 2 * c * Pow2(k - 1) == c * Pow2(k)
    ensures k > 1 ==> 2 * c * Pow2(k - 2) == c * Pow2(k - 1)
  {
    Products(1, Pow2(k - 1), c);
    if k > 1 { assert Pow2(k - 1) == 2 * Pow2(k - 2); }
  }

  /** As long as chunks come in full, or it is the last, making room for one more follows
      the closed form. */
  lemma CapNext(t: nat, total: nat, count: nat, needed: nat)
    requires 0 < count <= t && needed == total + count && (total == 0 || t <= total)
    ensures Capacity(Cap(t, total), needed) == Cap(t, needed)
  {
    hide Doubled;
    if total > 0 {
      TotalDoubled(t, total);
      var c := Doubled(t, total);
      DoubledHolds(t, total);
      DoubledOn(t, total, needed);
      OneDoubling(c, needed);
    }
  }

  lemma TotalDoubled(t: nat, total: nat)
    requires 0 < t <= total
    ensures Cap(t, total) == Doubled(t, total)
  {
  }

  lemma OneDoubling(c: nat, n: nat)
    requires 0 < c && n <= 2 * c
    ensures Doubled(c, n) == if n <= c then c else 2 * c
  {
  }

  lemma CapMonotone(t: nat, n: nat, m: nat)
    requires 0 < t && n <= m
    ensures Cap(t, n) <= Cap(t, m)
  {
    DoubledOn(t, n, m);
    DoubledHolds(t, m);
    DoubledHolds(Doubled(t, n), m);
  }

  /** Room for a chunk is refused exactly if the capacity in closed form is too big. */
  lemma ChunkRoom(t: nat, total: nat, count: nat, needed: nat, all: nat, frameBytes: nat, sizeMax: nat, refuse: bool)
    requires 0 < count <= t && needed == total + count <= all && (total == 0 || t <= total)
    requires Cap(t, total) * frameBytes <= sizeMax
    ensures var capacity := Cap(t, total); var status := Room(capacity, needed, frameBytes, sizeMax, refuse);
      && Capacity(capacity, needed) == Cap(t, needed)
      && (status.Complete? ==> Cap(t, needed) * frameBytes <= sizeMax)
      && (status.TooBig? ==> Cap(t, all) * frameBytes > sizeMax)
      && (status.NoMemory? ==> refuse)
  {
    CapNext(t, total, count, needed);
    CapMonotone(t, needed, all);
    Products(Cap(t, needed), Cap(t, all), frameBytes);
  }

  // ----- the full read -----

  /** What the buffer of a full read holds, and how large it has become. */
  ghost predicate Collected(frames: array<PcmFrame>, total: nat, got: seq<PcmFrame>, t: nat, frameBytes: nat,
          sizeMax: nat)
    requires t > 0
    reads frames
  {
    && total == |got| <= frames.Length == Cap(t, total) && frames[..total] == got
    && frames.Length * frameBytes <= sizeMax
  }

  /** Why a full read ends early. */
  ghost predicate Ended(status: Status, t: nat, all: nat, frameBytes: nat, sizeMax: nat, refused: set<nat>)
    requires t > 0
  {
    && (status.TooBig? ==> Cap(t, all) * frameBytes > sizeMax)
    && (status.NoMemory? ==> refused != {})
  }

  const FULL_SAMPLES: nat := 4096

  /** The chunks of a full read: while they come in full, what is in the buffer is what has
      been asked for. `refused` are the requests for memory that are refused; `moved` counts
      the PCM frames that reallocations have moved. */
  method FullReadChunks(r: Reader, temp: array<PcmFrame>, t: nat, frameBytes: nat, sizeMax: nat, refused: set<nat>)
    returns (frames: array<PcmFrame>, total: nat, status: Status, ghost got: seq<PcmFrame>, ghost moved: nat)
    requires r.Valid() && t == temp.Length > 0
    modifies r, temp
    ensures fresh(frames) && r.Valid() && got <= Everything(old(r.Now()), r.trim)
    ensures Collected(frames, total, got, t, frameBytes, sizeMax) && moved <= frames.Length
    ensures status.Complete? <==> got == Everything(old(r.Now()), r.trim)
    ensures Ended(status, t, |Everything(old(r.Now()), r.trim)|, frameBytes, sizeMax, refused)
  {
    ghost var st, all, asked: nat := r.Now(), |Everything(r.Now(), r.trim)|, 0;
    frames := new PcmFrame[0];
    total, status, got, moved := 0, Complete, [], 0;
    GotNothing(st, r.trim);
    var more, request := true, 0;
    while more
      invariant r.Valid() && fresh(frames) && Collected(frames, total, got, t, frameBytes, sizeMax)
      invariant moved <= frames.Length && got <= Everything(st, r.trim)
      invariant more ==> status.Complete? && asked == total && (total == 0 || t <= total)
      invariant more ==> Got(st, r.trim, asked, r.Now(), got)
      invariant !more ==> (status.Complete? <==> got == Everything(st, r.trim))
      invariant Ended(status, t, all, frameBytes, sizeMax, refused)
      decreases more, all - total
    {
      ghost var st1 := r.Now();
      var count, pcm := ReadChunk(r, t, temp);
      ghost var before := asked;
      asked := before + t;
      GotChunk(st, r.trim, before, st1, got, t, r.Now(), pcm, asked);
      GotBeginning(st, r.trim, asked, r.Now(), got + pcm);
      if count < t { ShortIsEverything(st, r.trim, asked, r.Now(), got + pcm); }
      if count == 0 {
        assert got + pcm == got;
        more := false;
      } else {
        ghost var capacity := frames.Length;
        var needed := total + count;
        ChunkRoom(t, total, count, needed, all, frameBytes, sizeMax, request in refused);
        frames, status := Append(frames, total, temp, count, needed, frameBytes, sizeMax, request in refused);
        if status.Complete? {
          moved := if frames.Length == capacity then moved else moved + capacity;
          got, total, more := got + pcm, needed, count == t;
          request := request + 1;
        } else {
          more := false;
        }
      }
    }
  }

  /** drmp3__full_read_and_close_s16. A refused allocation gives up everything. A size limit
      leaves the caller with the beginning only, and no sign of it: the original does not
      return the status. Nothing refused, this happens exactly if the capacity that all of
      it ends up in is over the limit. */
  method FullReadAndClose(r: Reader, channels: nat, sizeMax: nat, refused: set<nat>)
    returns (frames: array?<PcmFrame>, total: nat, status: Status, ghost moved: nat)
    requires r.Valid() && 0 < channels <= FULL_SAMPLES
    modifies r
    ensures status.Complete? && frames != null ==>
      total <= frames.Length && frames[..total] == Everything(old(r.Now()), r.trim)
    ensures status.Complete? && frames == null ==> total == 0 && Everything(old(r.Now()), r.trim) == []
    ensures status.TooBig? && frames != null ==>
      total <= frames.Length && frames[..total] < Everything(old(r.Now()), r.trim)
    ensures status.NoMemory? ==> frames == null && total == 0
    ensures frames != null ==> fresh(frames) && moved <= frames.Length && Fits(channels, total, sizeMax)
    ensures refused == {} ==>
      (status.Complete? <==> Fits(channels, |Everything(old(r.Now()), r.trim)|, sizeMax)) && !status.NoMemory?
  {
    var t := FULL_SAMPLES / channels;
    assert t > 0;
    var temp := new PcmFrame[t](_ => []);
    ghost var got;
    frames, total, status, got, moved := FullReadChunks(r, temp, t, 2 * channels, sizeMax, refused);
    if total == 0 || status.NoMemory? { frames, total := null, 0; }
  }

  /** Whether n PCM frames can be read in full. */
  predicate Fits(channels: nat, n: nat, sizeMax: nat)
    requires 0 < channels <= FULL_SAMPLES
  {
    Cap(FULL_SAMPLES / channels, n) * (2 * channels) <= sizeMax
  }

  /** That is: with buffers of `t` PCM frames, 4096 samples, what fits one buffer takes up no more than
      its PCM frames, and more of them the first buffer doubled `k` times, until it holds them; and
      that must not be over the limit. */
  lemma FitsIff(channels: nat, n: nat, sizeMax: nat, k: nat, t: nat, half: nat, capacity: nat)
    requires 0 < channels <= 4096 && t == 4096 / channels && k > 0
    requires half == t * Pow2(k - 1) && capacity == t * Pow2(k)
    ensures n <= t ==> (Fits(channels, n, sizeMax) <==> n * (2 * channels) <= sizeMax)
    ensures half < n <= capacity ==> (Fits(channels, n, sizeMax) <==> capacity * (2 * channels) <= sizeMax)
  {
    hide Doubled, Pow2;
    OneBuffer(channels, t);
    if half < n <= capacity {
      Doublings(t, n, k);
      NotInOne(t, half, k);
    }
  }

  lemma OneBuffer(channels: nat, t: nat)
    requires 0 < channels <= 4096 && t == 4096 / channels
    ensures t > 0
  {
  }

  lemma NotInOne(t: nat, half: nat, k: nat)
    requires k > 0 && half == t * Pow2(k - 1)
    ensures t <= half
  {
    Products(1, Pow2(k - 1), t);
  }

  lemma PowersToNineteen()
    ensures Pow2(17) == 131072 && Pow2(18) == 262144 && Pow2(19) == 524288
  {
    assert Pow2(4) == 16;
    assert Pow2(8) == 256;
    assert Pow2(12) == 4096;
    assert Pow2(16) == 65536;
  }

  /** In stereo and with 32-bit sizes, 2^29 PCM frames (2 GiB) are read in full. One more is
      lost: not because its four bytes would not fit, but because the doubled capacity would
      not. */
  lemma TruncationExample()
    ensures Fits(2, 0x2000_0000, 0xFFFF_FFFF) && !Fits(2, 0x2000_0001, 0xFFFF_FFFF)
    ensures 0x2000_0001 * 4 < 0xFFFF_FFFF
  {
    PowersToNineteen();
    Doublings(2048, 0x2000_0000, 18);
    Doublings(2048, 0x2000_0001, 19);
  }
}
