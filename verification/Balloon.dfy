/**
 * The VRAM balloon: how a reserve is cut into chunks, which chunk gives way,
 * and the book-keeping of what is held, over fills, refusals and failures.
 */
module Balloon {
  import opened Common

  const MAX_CHUNKS: nat := 64
  const ALIGN: nat := 0x10000   // 64 KiB, as a scanout buffer
  const NV_ERR_NO_MEMORY: int := 0x51

  datatype Shape = Shape(chunk: nat, full: nat, rest: nat)

  /** All chunks: the full ones and the rest, if there is one. */
  function Chunks(b: Shape): nat {
    b.full + (if b.rest > 0 then 1 else 0)
  }

  /** Chunk `i`; number `full` is the rest. */
  function ChunkBytes(b: Shape, i: nat): nat {
    if i < b.full then b.chunk else b.rest
  }

  function RoundUp(v: nat, a: nat): nat
    requires a > 0
  {
    (v + a - 1) / a * a
  }

  lemma RoundUpCovers(v: nat, a: nat)
    requires a > 0
    ensures RoundUp(v, a) >= v
  {
    DivMod(v + a - 1, a);
  }

  /** A scanout buffer `s`, or more if `r` would take more than MAX_CHUNKS of them. */
  function ChunkSize(r: nat, s: nat): nat {
    var least := RoundUp((r + MAX_CHUNKS - 1) / MAX_CHUNKS, ALIGN);
    if s > least then s else least
  }

  lemma ChunkSizeCovers(r: nat, s: nat)
    ensures ChunkSize(r, s) * MAX_CHUNKS >= r
    ensures ChunkSize(r, s) >= s
  {
    var per := (r + MAX_CHUNKS - 1) / MAX_CHUNKS;
    DivMod(r + MAX_CHUNKS - 1, MAX_CHUNKS);
    RoundUpCovers(per, ALIGN);
  }

  /** The least multiple of `a` at or above `v`. */
  lemma RoundUpIsLeast(v: nat, a: nat, k: nat)
    requires a > 0
    ensures RoundUp(v, a) == (v + a - 1) / a * a && RoundUp(v, a) >= v
    ensures v <= k * a ==> RoundUp(v, a) <= k * a
  {
    RoundUpCovers(v, a);
    DivMod(v + a - 1, a);
    if v <= k * a && (v + a - 1) / a > k {
      MulMono(k + 1, (v + a - 1) / a, a);
      assert false;
    }
    if v <= k * a { MulMono((v + a - 1) / a, k, a); }
  }

  /**
   * A chunk is a scanout buffer, or the least multiple of 64 KiB that covers the
   * reserve in MAX_CHUNKS pieces: the larger of the two.  For a buffer of whole
   * 64 KiB that is the buffer itself exactly when MAX_CHUNKS of them cover it.
   */
  lemma ChunkSizeIsLeast(r: nat, s: nat, k: nat)
    ensures ChunkSize(r, s) == s || (ChunkSize(r, s) > s && exists m: nat :: ChunkSize(r, s) == m * ALIGN)
    ensures MAX_CHUNKS * (k * ALIGN) >= r ==> ChunkSize(r, s) <= Bigger(s, k * ALIGN)
    ensures s % ALIGN == 0 ==> (ChunkSize(r, s) == s <==> MAX_CHUNKS * s >= r)
  {
    var per := (r + MAX_CHUNKS - 1) / MAX_CHUNKS;
    DivMod(r + MAX_CHUNKS - 1, MAX_CHUNKS);
    RoundUpIsLeast(per, ALIGN, k);
    assert ChunkSize(r, s) != s ==> ChunkSize(r, s) == (per + ALIGN - 1) / ALIGN * ALIGN;
    if s % ALIGN == 0 {
      RoundUpIsLeast(per, ALIGN, s / ALIGN);
      ChunkSizeCovers(r, s);
    }
  }

  function Bigger(a: nat, b: nat): nat { if a < b then b else a }

  /** A buffer that is not whole 64 KiB may give way although it would do. */
  lemma UnalignedBufferGivesWay()
    ensures ChunkSize(6400, 100) == ALIGN && MAX_CHUNKS * 100 >= 6400
  {
    assert (6400 + MAX_CHUNKS - 1) / MAX_CHUNKS == 100;
    assert RoundUp(100, ALIGN) == ALIGN;
  }

  /** `r` in chunks of `chunk`, the last one smaller. */
  function Divided(r: nat, chunk: nat): (b: Shape)
    ensures b.chunk == chunk && b.full * chunk + b.rest == r
    ensures chunk > 0 ==> b.rest < chunk
  {
    if chunk == 0 then Shape(0, 0, r)
    else
      DivMod(r, chunk);
      Shape(chunk, r / chunk, r - (r / chunk) * chunk)
  }

  lemma FewChunks(r: nat, chunk: nat)
    requires chunk > 0 && chunk * MAX_CHUNKS >= r
    ensures Chunks(Divided(r, chunk)) <= MAX_CHUNKS
  {
    var b := Divided(r, chunk);
    if b.full > MAX_CHUNKS {
      MulMono(MAX_CHUNKS + 1, b.full, chunk);
      assert false;
    }
    if b.full == MAX_CHUNKS {
      assert b.full * chunk == chunk * MAX_CHUNKS;
    }
  }

  /** `nvrm_balloon_shape`. */
  function Cut(r: nat, s: nat): (b: Shape)
    requires r + MAX_CHUNKS + ALIGN < U64 && s < U64   // no 64-bit addition wraps
  {
    Divided(r, ChunkSize(r, s))
  }

  /**
   * The cut loses nothing, needs at most MAX_CHUNKS chunks in all, the rest is
   * smaller than a chunk (unless there is nothing to cut and no size to cut
   * by), and no chunk is smaller than a scanout buffer.
   */
  lemma CutIsSound(r: nat, s: nat)
    requires r + MAX_CHUNKS + ALIGN < U64 && s < U64
    ensures var b := Cut(r, s);
      && b.full * b.chunk + b.rest == r
      && Chunks(b) <= MAX_CHUNKS
      && (b.rest < b.chunk <==> !(r == 0 && s == 0))
      && b.chunk >= s
      && Proper(b)
  {
    ChunkSizeCovers(r, s);
    if ChunkSize(r, s) > 0 { FewChunks(r, ChunkSize(r, s)); }
  }

  /** `nvrm_balloon_pick`: 1 = a full chunk, 0 = the rest, -1 = nothing held. */
  function Pick(fullHeld: nat, restHeld: bool, rest: nat, want: nat): (k: int)
    ensures k == -1 <==> fullHeld == 0 && !restHeld
    ensures k == 1 ==> fullHeld > 0
    ensures k == 0 ==> restHeld
    ensures restHeld && rest >= want ==> k == 0
    ensures k == 0 ==> rest >= want || fullHeld == 0
    ensures -1 <= k <= 1
  {
    if restHeld && rest >= want then 0
    else if fullHeld > 0 then 1
    else if restHeld then 0 else -1
  }

  // ------------------------------------------------------------------- bitmap

  /** `bitmap_weight(held, n)`. */
  function Weight(held: set<nat>, n: nat): nat {
    if n == 0 then 0 else Weight(held, n - 1) + (if n - 1 in held then 1 else 0)
  }

  lemma {:induction false} WeightZero(held: set<nat>, n: nat)
    ensures Weight(held, n) == 0 <==> forall i :: 0 <= i < n ==> i !in held
  {
    if n > 0 { WeightZero(held, n - 1); }
  }

  /** `find_last_bit(held, n)`. */
  function LastBit(held: set<nat>, n: nat): (i: nat)
    requires Weight(held, n) > 0
    ensures i < n && i in held && forall j :: i < j < n ==> j !in held
  {
    if n - 1 in held then n - 1 else LastBit(held, n - 1)
  }

  /** `find_first_zero_bit(held, n)`. */
  function FirstZeroBit(held: set<nat>, n: nat): (i: nat)
    ensures i <= n && (forall j :: 0 <= j < i ==> j in held) && (i < n ==> i !in held)
  {
    FirstZeroFrom(held, n, 0)
  }

  function FirstZeroFrom(held: set<nat>, n: nat, from: nat): (i: nat)
    requires from <= n
    ensures from <= i <= n && (forall j :: from <= j < i ==> j in held) && (i < n ==> i !in held)
    decreases n - from
  {
    if from == n || from !in held then from else FirstZeroFrom(held, n, from + 1)
  }

  // -------------------------------------------------------------- held bytes

  /** The summed sizes of the held chunks below `n`. */
  function HeldSum(b: Shape, held: set<nat>, n: nat): nat {
    if n == 0 then 0 else HeldSum(b, held, n - 1) + (if n - 1 in held then ChunkBytes(b, n - 1) else 0)
  }

  lemma {:induction false} HeldSumWith(b: Shape, held: set<nat>, n: nat, i: nat)
    requires i !in held
    ensures HeldSum(b, held + {i}, n) == HeldSum(b, held, n) + (if i < n then ChunkBytes(b, i) else 0)
  {
    if n > 0 { HeldSumWith(b, held, n - 1, i); }
  }

  lemma HeldSumWithout(b: Shape, held: set<nat>, n: nat, i: nat)
    requires i in held
    ensures HeldSum(b, held - {i}, n) == HeldSum(b, held, n) - (if i < n then ChunkBytes(b, i) else 0)
  {
    HeldSumWith(b, held - {i}, n, i);
    assert held - {i} + {i} == held;
  }

  /** Every chunk held: the first `n` chunks in sum. */
  function AllBytes(b: Shape, n: nat): nat {
    if n == 0 then 0 else AllBytes(b, n - 1) + ChunkBytes(b, n - 1)
  }

  lemma AllBytesClosed(b: Shape)
    ensures AllBytes(b, Chunks(b)) == b.full * b.chunk + b.rest
  {
    AllBytesFull(b, b.full);
  }

  lemma {:induction false} AllBytesFull(b: Shape, n: nat)
    requires n <= b.full
    ensures AllBytes(b, n) == n * b.chunk
  {
    if n > 0 { AllBytesFull(b, n - 1); }
  }

  /** A cut none of whose chunks is empty. */
  predicate Proper(b: Shape) {
    b.full > 0 ==> b.chunk > 0
  }

  /** The held bytes reach the whole exactly when every chunk is held. */
  lemma {:induction false} HeldSumIsAll(b: Shape, held: set<nat>, n: nat)
    requires Proper(b) && n <= Chunks(b)
    ensures HeldSum(b, held, n) <= AllBytes(b, n)
    ensures HeldSum(b, held, n) == AllBytes(b, n) <==> forall i :: 0 <= i < n ==> i in held
  {
    if n > 0 { HeldSumIsAll(b, held, n - 1); }
  }

  /** Nothing is held exactly when no bytes are. */
  lemma {:induction false} HeldSumIsNone(b: Shape, held: set<nat>, n: nat)
    requires Proper(b) && n <= Chunks(b)
    ensures HeldSum(b, held, n) == 0 <==> forall i :: 0 <= i < n ==> i !in held
  {
    if n > 0 { HeldSumIsNone(b, held, n - 1); }
  }

  // ------------------------------------------------------------------- state

  /** What an RM call came back with: the transport's errno (0 = it arrived) and RM's status. */
  datatype Answer = Answer(ret: int, status: int)

  const NO_MEMORY := Answer(0, NV_ERR_NO_MEMORY)

  /** What a caller makes of it: the errno of a lost call, else RM's status. */
  function Code(a: Answer): int { if a.ret != 0 then a.ret else a.status }

  /** What one attempt to give a chunk back came to. */
  datatype Gift = Nothing | Lost | Gave(bytes: nat)

  /** The last of `tries` calls was lost on the way. */
  predicate LastFailed(answers: nat -> Answer, tries: nat) { tries > 0 && answers(tries - 1).ret != 0 }

  /** The balloon, as it stands under `balloon_lock`. */
  class Reserve {
    var cut: bool          // `shape` is cut for `target`
    var target: nat        // bytes
    var shape: Shape
    var held: set<nat>     // bit i: chunk i is held
    var heldBytes: nat
    var device: bool       // the balloon's own RM device exists

    /** Held bits name chunks that are there, and `heldBytes` is what they sum to. */
    ghost predicate Valid()
      reads this
    {
      && (shape.rest < shape.chunk || shape == Shape(0, 0, 0))
      && Chunks(shape) <= MAX_CHUNKS
      && (cut ==> shape.full * shape.chunk + shape.rest == target)
      && (forall i :: i in held ==> i < Chunks(shape))
      && heldBytes == HeldSum(shape, held, Chunks(shape))
      && (!cut ==> held == {})
      && (held != {} ==> device)
    }

    constructor ()
      ensures Valid() && !cut && heldBytes == 0
    {
      cut, target, shape, held, heldBytes, device := false, 0, Shape(0, 0, 0), {}, 0, false;
    }

    /** `heldBytes` equals the target exactly when every chunk is held; it is zero exactly when none is. */
    lemma HeldIsExact()
      requires Valid()
      ensures cut ==> (heldBytes == target <==> forall i :: 0 <= i < Chunks(shape) ==> i in held)
      ensures heldBytes == 0 <==> held == {}
    {
      HeldSumIsAll(shape, held, Chunks(shape));
      HeldSumIsNone(shape, held, Chunks(shape));
      AllBytesClosed(shape);
    }

    /** `balloon_close`: the client takes its children along; the bits go whatever the host says. */
    method Close()
      requires Valid()
      modifies this`held, this`heldBytes, this`device
      ensures Valid() && held == {} && heldBytes == 0 && !device
    {
      device := false;
      held := {};
      heldBytes := 0;
      HeldSumIsNone(shape, {}, Chunks(shape));
    }

    /** `balloon_alloc_chunk`: 0, RM's status or the transport's errno. */
    method AllocChunk(i: nat, answer: Answer) returns (ret: int)
      requires Valid() && cut && device && i < Chunks(shape) && i !in held
      modifies this`held, this`heldBytes
      ensures Valid()
      ensures ret == Code(answer)
      ensures ret == 0 ==> held == old(held) + {i} && heldBytes == old(heldBytes) + ChunkBytes(shape, i)
      ensures ret != 0 ==> held == old(held) && heldBytes == old(heldBytes)
    {
      ret := if answer.ret != 0 then answer.ret else answer.status;
      if ret == 0 {
        HeldSumWith(shape, held, Chunks(shape), i);
        held := held + {i};
        heldBytes := heldBytes + ChunkBytes(shape, i);
      }
    }

    /** `balloon_free_chunk`: only a failed transport keeps the bit, RM's status does not. */
    method FreeChunk(i: nat, answer: Answer) returns (ret: int)
      requires Valid() && i in held
      modifies this`held, this`heldBytes
      ensures Valid() && ret == answer.ret
      ensures ret == 0 ==> held == old(held) - {i} && heldBytes == old(heldBytes) - ChunkBytes(shape, i)
      ensures ret != 0 ==> held == old(held) && heldBytes == old(heldBytes)
    {
      ret := answer.ret;
      if ret == 0 {
        HeldSumWithout(shape, held, Chunks(shape), i);
        held := held - {i};
        heldBytes := heldBytes - ChunkBytes(shape, i);
      }
    }

    /** One turn of the deflating loop: pick a chunk and give it back. */
    method GiveOne(need: nat, answer: Answer) returns (g: Gift)
      requires Valid() && need > 0
      modifies this`held, this`heldBytes
      ensures Valid() && held <= old(held)
      ensures g.Nothing? <==> old(held) == {}
      ensures !g.Nothing? ==> (g.Lost? <==> answer.ret != 0)
      ensures !g.Gave? ==> held == old(held) && heldBytes == old(heldBytes)
      ensures g.Gave? ==> 0 < g.bytes <= shape.chunk && heldBytes == old(heldBytes) - g.bytes && |held| == |old(held)| - 1
      ensures g.Gave? && need <= shape.chunk && Weight(old(held), shape.full) > 0 ==> g.bytes >= need
    {
      var k := Pick(Weight(held, shape.full), shape.rest > 0 && shape.full in held, shape.rest, need);
      WeightZero(held, shape.full);
      if k < 0 {
        NothingHeld();
        return Nothing;
      }
      var i := if k > 0 then LastBit(held, shape.full) else shape.full;
      var ret := FreeChunk(i, answer);
      g := if ret != 0 then Lost else Gave(ChunkBytes(shape, i));
    }

    /**
     * `balloon_deflate`: give chunks back until `want` bytes are free.
     * `answers` are the host's, one per free attempted, and `tries` counts
     * them; the first transport failure is the last attempt.
     */
    method Deflate(want: nat, answers: nat -> Answer) returns (freed: nat, tries: nat)
      requires Valid()
      modifies this`held, this`heldBytes
      ensures Valid() && held <= old(held)
      ensures freed == old(heldBytes) - heldBytes
      ensures freed < want + shape.chunk || freed == want == 0
      ensures forall k :: 0 <= k < tries - 1 ==> answers(k).ret == 0
      ensures |old(held)| == |held| + tries - (if LastFailed(answers, tries) then 1 else 0)
      ensures freed < want ==> held == {} || LastFailed(answers, tries)
      ensures LastFailed(answers, tries) ==> freed < want
      ensures freed == 0 <==> held == old(held)
      ensures want == 0 ==> freed == tries == 0
      // a buffer no larger than a chunk takes one chunk and no more, while a full one is held
      ensures !LastFailed(answers, tries) && 0 < want <= shape.chunk && Weight(old(held), shape.full) > 0 ==> tries == 1
    {
      freed, tries := 0, 0;
      WeightZero(held, shape.full);
      while freed < want
        invariant Valid() && held <= old(held)
        invariant freed == old(heldBytes) - heldBytes
        invariant freed < want + shape.chunk || freed == want == 0
        invariant forall k :: 0 <= k < tries ==> answers(k).ret == 0
        invariant |old(held)| == |held| + tries
        invariant (freed == 0 <==> held == old(held)) && (freed == 0 <==> tries == 0) && (want == 0 ==> freed == 0)
        invariant freed > 0 && want <= shape.chunk && Weight(old(held), shape.full) > 0 ==> freed >= want && tries == 1
        decreases |held|
      {
        var g := GiveOne(want - freed, answers(tries));
        if g.Nothing? {
          break;
        }
        tries := tries + 1;
        if g.Lost? {
          break;
        }
        freed := freed + g.bytes;
      }
    }

    lemma NotAllHeld()
      requires Valid() && cut && target > 0
      requires held == {} || !(forall i :: 0 <= i < Chunks(shape) ==> i in held)
      ensures heldBytes != target
    {
      HeldIsExact();
    }

    lemma NothingHeld()
      requires Valid()
      requires forall i :: 0 <= i < shape.full ==> i !in held
      requires !(shape.rest > 0 && shape.full in held)
      ensures held == {}
    {
    }

    /** `balloon_open` succeeds at once when the device is there, else it answers `openRet`. */
    method Open(openRet: int) returns (ret: int)
      modifies this`device
      ensures ret == if old(device) then 0 else openRet
      ensures device == (ret == 0)
    {
      ret := if device then 0 else openRet;
      device := ret == 0;
    }

    /** The device outlives a recut unless there was something to let go of or nothing is wanted. */
    ghost predicate KeepsDevice(newTarget: nat, scanout: nat)
      requires newTarget + MAX_CHUNKS + ALIGN < U64 && scanout < U64
      reads this
    {
      device && ((heldBytes == 0 && newTarget > 0) || (cut && target == newTarget && shape.chunk == Cut(newTarget, scanout).chunk))
    }

    /** The first half of `balloon_worker`: a new target or chunk size lets go of everything and cuts anew. */
    method Recut(newTarget: nat, scanout: nat)
      requires Valid()
      requires newTarget + MAX_CHUNKS + ALIGN < U64 && scanout < U64
      modifies this
      ensures Valid() && cut && target == newTarget && shape == Cut(newTarget, scanout)
      // an unchanged cut keeps what it holds, a new one starts from nothing: no stale bit
      ensures if old(cut) && old(target) == newTarget && old(shape) == shape then held == old(held) else held == {}
      ensures device == old(KeepsDevice(newTarget, scanout))
    {
      var next := Cut(newTarget, scanout);
      CutIsSound(newTarget, scanout);
      if !cut || newTarget != target || next.chunk != shape.chunk {
        HeldIsExact();
        if heldBytes != 0 || newTarget == 0 {
          Close();
        }
        target, shape, cut := newTarget, next, true;
        HeldSumIsNone(shape, {}, Chunks(shape));
      } else {
        SameCut(shape, next, newTarget);
      }
    }

    /** The second half: one chunk at a time, until all are held or the host refuses one. */
    method FillChunks(answers: nat -> Answer) returns (ret: int, asked: nat)
      requires Valid() && cut && device
      modifies this`held, this`heldBytes
      ensures Valid() && old(held) <= held
      ensures ret == 0 <==> forall i :: 0 <= i < Chunks(shape) ==> i in held
      ensures forall k :: 0 <= k < asked - 1 ==> Code(answers(k)) == 0
      ensures ret == if asked == 0 then 0 else Code(answers(asked - 1))
      ensures |held| == |old(held)| + asked - (if ret != 0 then 1 else 0)
    {
      ret, asked := 0, 0;
      var i := FirstZeroBit(held, Chunks(shape));
      while ret == 0 && i < Chunks(shape)
        invariant Valid() && old(held) <= held
        invariant i == FirstZeroBit(held, Chunks(shape))
        invariant ret != 0 ==> i < Chunks(shape)
        invariant forall k :: 0 <= k < asked - 1 ==> Code(answers(k)) == 0
        invariant ret == if asked == 0 then 0 else Code(answers(asked - 1))
        invariant |held| == |old(held)| + asked - (if ret != 0 then 1 else 0)
        decreases Chunks(shape) - Weight(held, Chunks(shape)), if ret == 0 then 1 else 0
      {
        ret, i := AskOne(i, answers(asked));
        asked := asked + 1;
      }
    }

    /** One turn of the filling loop: ask for the first chunk that is missing. */
    method AskOne(i: nat, answer: Answer) returns (ret: int, next: nat)
      requires Valid() && cut && device && i == FirstZeroBit(held, Chunks(shape)) < Chunks(shape)
      modifies this`held, this`heldBytes
      ensures Valid() && old(held) <= held && ret == Code(answer)
      ensures next == FirstZeroBit(held, Chunks(shape)) && (ret != 0 ==> next == i)
      ensures |held| == |old(held)| + (if ret == 0 then 1 else 0)
      ensures Weight(held, Chunks(shape)) == Weight(old(held), Chunks(shape)) + (if ret == 0 then 1 else 0) <= Chunks(shape)
    {
      WeightWith(held, Chunks(shape), i);
      ret := AllocChunk(i, answer);
      WeightBound(held, Chunks(shape));
      next := FirstZeroBit(held, Chunks(shape));
    }

    /**
     * `balloon_worker`: cut, then fill.  `answers` are the host's, one per
     * chunk asked for.
     */
    method Fill(newTarget: nat, scanout: nat, openRet: int, answers: nat -> Answer) returns (ret: int, asked: nat)
      requires Valid()
      requires newTarget + MAX_CHUNKS + ALIGN < U64 && scanout < U64
      modifies this
      ensures Valid() && cut && target == newTarget && shape == Cut(newTarget, scanout)
      ensures ret == 0 <==> heldBytes == target
      ensures forall k :: 0 <= k < asked - 1 ==> Code(answers(k)) == 0
      // a failure is the device's, where it had to be made, or the last answer's
      ensures ret != 0 && asked == 0 ==> ret == openRet && newTarget > 0 && !old(KeepsDevice(newTarget, scanout))
      ensures asked > 0 ==> ret == Code(answers(asked - 1)) && (old(KeepsDevice(newTarget, scanout)) || openRet == 0)
      ensures var kept := if old(cut) && old(target) == newTarget && old(shape) == shape then old(held) else {};
        kept <= held && |held| == |kept| + asked - (if ret != 0 && asked > 0 then 1 else 0)
    {
      Recut(newTarget, scanout);
      asked := 0;
      if target == 0 {
        HeldIsExact();
        HeldSumIsAll(shape, held, Chunks(shape));
        AllBytesClosed(shape);
        return 0, 0;
      }
      ret := Open(openRet);
      if ret == 0 {
        ret, asked := FillChunks(answers);
      }
      HeldIsExact();
      if ret != 0 { NotAllHeld(); }
    }

    /**
     * The loop of `balloon_after_alloc`: a display buffer of `want` bytes was
     * refused for want of room, so give room back and ask again until it is
     * granted or nothing more can be given.  `frees(n)` answers the frees of
     * round n, `asks(n)` its retried allocation; `rounds` counts the retries.
     */
    method Retry(want: nat, frees: nat -> nat -> Answer, asks: nat -> Answer) returns (answer: Answer, gave: nat, rounds: nat)
      requires Valid()
      modifies this`held, this`heldBytes
      ensures Valid() && held <= old(held) && gave == old(heldBytes) - heldBytes
      // the last retry decides, and every earlier one was refused for want of room
      ensures answer == if rounds == 0 then NO_MEMORY else asks(rounds - 1)
      ensures forall r :: 0 <= r < rounds - 1 ==> asks(r) == NO_MEMORY
      ensures rounds == 0 <==> gave == 0
      // it gives up only with nothing left, or when the very first free of another round was lost
      ensures answer == NO_MEMORY ==> want == 0 || held == {} || frees(rounds)(0).ret != 0
      ensures want == 0 ==> rounds == 0
    {
      answer, gave, rounds := NO_MEMORY, 0, 0;
      while true
        invariant Valid() && held <= old(held) && gave == old(heldBytes) - heldBytes
        invariant answer == NO_MEMORY
        invariant forall r :: 0 <= r < rounds ==> asks(r) == NO_MEMORY
        invariant rounds == 0 <==> gave == 0
        invariant want == 0 ==> rounds == 0
        decreases heldBytes
      {
        var got, tries := Deflate(want, frees(rounds));
        if got == 0 {
          assert LastFailed(frees(rounds), tries) ==> tries == 1;
          break;
        }
        gave := gave + got;
        answer := asks(rounds);
        rounds := rounds + 1;
        if answer.ret != 0 || answer.status != NV_ERR_NO_MEMORY {
          break;
        }
        // another NVKMS allocation took the room first: go round again
      }
    }

    /** `balloon_stop`. */
    method Stop()
      requires Valid()
      modifies this
      ensures Valid() && !cut && held == {} && heldBytes == 0
    {
      Close();
      cut := false;
    }
  }

  /** Target and chunk determine the cut. */
  lemma SameCut(a: Shape, b: Shape, r: nat)
    requires a.full * a.chunk + a.rest == r && b.full * b.chunk + b.rest == r
    requires a.chunk == b.chunk
    requires a.rest < a.chunk || a == Shape(0, 0, 0)
    requires b.rest < b.chunk || b == Shape(0, 0, 0)
    ensures a == b
  {
    if a.full < b.full { MulMono(a.full + 1, b.full, a.chunk); }
    if b.full < a.full { MulMono(b.full + 1, a.full, a.chunk); }
  }

  lemma {:induction false} WeightWith(held: set<nat>, n: nat, i: nat)
    requires i !in held
    ensures Weight(held + {i}, n) == Weight(held, n) + (if i < n then 1 else 0)
  {
    if n > 0 { WeightWith(held, n - 1, i); }
  }

  lemma {:induction false} WeightBound(held: set<nat>, n: nat)
    ensures Weight(held, n) <= n
  {
    if n > 0 { WeightBound(held, n - 1); }
  }
}
