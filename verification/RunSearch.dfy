/** When the multi-block search of the physical memory manager finds a run, and which. */
module RunSearch {
  import opened PhysicalMemory

  /** The bit of word i at which its last stretch of clear bits starts; 32 if its last bit is in use. */
  ghost function TailStart(used: set<int>, max: int, i: nat, k: nat := 32): (t: nat)
    requires k <= 32
    ensures t <= k
  {
    if k == 0 || Tests(used, max, 32 * i + k - 1) then k else TailStart(used, max, i, k - 1)
  }

  /** The word the search turns to after word i: the next one, or, if a run too short leaves word i, the
      word past the one in which that run ends. */
  ghost function NextWord(used: set<int>, max: int, amount: nat, i: nat): (w: nat)
    ensures i < w
  {
    var t := TailStart(used, max, i);
    var n := ClearCount(used, max, 32 * i + t, amount);
    if t == 32 || n == amount then i + 1 else i + (t + n) / 32 + 1
  }

  /** The search gets from word i to word w, unless it finds a run before. */
  ghost predicate Entered(used: set<int>, max: int, amount: nat, i: nat, w: int)
    decreases w - i
  {
    i == w || (i < w && Entered(used, max, amount, NextWord(used, max, amount, i), w))
  }

  /** A free run that starts in a word the search enters from word i on. */
  ghost predicate Findable(used: set<int>, max: nat, amount: nat, i: nat, b: int) {
    && b < max / 32 * 32 && FreeRun(used, max, b, amount)
    && Entered(used, max, amount, i, b / 32)
  }

  /** No free run starts at a bit from `low` up to `high`. */
  ghost predicate NoneStarts(used: set<int>, max: int, amount: int, low: int, high: int) {
    forall b :: low <= b < high ==> !FreeRun(used, max, b, amount)
  }

  lemma UsedBreaks(used: set<int>, max: int, base: int, amount: nat, c: int)
    requires InRun(c, base, amount) && Tests(used, max, c)
    ensures !FreeRun(used, max, base, amount)
  {
    assert c in Run(base, amount);
  }

  lemma FreeIsClear(used: set<int>, max: int, base: int, amount: nat)
    requires 0 in used && 0 <= base && 0 < amount
    ensures FreeRun(used, max, base, amount) <==> ClearCount(used, max, base, amount) == amount
  {
    var n := ClearCount(used, max, base, amount);
    ClearMeans(used, max, base, amount);
    if n == amount {
      assert !Tests(used, max, base);
      ClearIsFree(used, max, base, amount);
    } else {
      UsedBreaks(used, max, base, amount, base + n);
    }
  }

  /** A run too short from `base` on: no run that is long enough starts in it, or at the bit that ends it. */
  lemma NoneInside(used: set<int>, max: int, base: int, amount: nat, n: nat)
    requires 0 in used && 0 <= base && n == ClearCount(used, max, base, amount) && n < amount
    ensures Tests(used, max, base + n) && NoneStarts(used, max, amount, base, base + n + 1)
  {
    ClearMeans(used, max, base, amount);
    forall b | base <= b < base + n + 1 ensures !FreeRun(used, max, b, amount) {
      UsedBreaks(used, max, b, amount, base + n);
    }
  }

  lemma {:induction false} TailIs(used: set<int>, max: int, i: nat, k: nat, l: nat)
    requires k <= l <= 32 && (k == 0 || Tests(used, max, 32 * i + k - 1))
    requires forall b :: 32 * i + k <= b < 32 * i + l ==> !Tests(used, max, b)
    ensures TailStart(used, max, i, l) == k
    decreases l
  {
    if k < l { TailIs(used, max, i, k, l - 1); }
  }

  /** In a word, from a bit behind a used one on: the search stops at the first bit from which a run is long
      enough; if there is none it turns to the next word. */
  ghost predicate WordOutcome(used: set<int>, max: nat, amount: nat, i: nat, k: nat) {
    var r := RunScan(used, max, amount, i, k);
    || (32 * i + k <= r < 32 * i + 32 && FreeRun(used, max, r, amount) && NoneStarts(used, max, amount, 32 * i + k, r))
    || (NoneStarts(used, max, amount, 32 * i + k, 32 * i + 32)
        && r == RunScan(used, max, amount, NextWord(used, max, amount, i), 0))
  }

  lemma {:induction false} WordScan(used: set<int>, max: nat, amount: nat, i: nat, k: nat)
    requires 0 in used && 0 < amount && i < max / 32 && k <= 32 && !WordFull(used, i)
    requires k == 0 || Tests(used, max, 32 * i + k - 1)
    ensures WordOutcome(used, max, amount, i, k)
    decreases 32 - k
  {
    if k == 32 {
      ScanPast(used, max, amount, i, k);
    } else {
      var n := ClearCount(used, max, 32 * i + k, amount);
      FreeIsClear(used, max, 32 * i + k, amount);
      if n < amount {
        NoneInside(used, max, 32 * i + k, amount, n);
        if k + n < 32 {
          WordScan(used, max, amount, i, k + n + 1);
          WordGoesOn(used, max, amount, i, k, n);
        } else {
          RunLeaves(used, max, amount, i, k, n);
        }
      }
    }
  }

  /** The run from bit k ends inside the word. */
  lemma WordGoesOn(used: set<int>, max: nat, amount: nat, i: nat, k: nat, n: nat)
    requires i < max / 32 && k + n < 32 && !WordFull(used, i)
    requires n == ClearCount(used, max, 32 * i + k, amount) && n < amount
    requires NoneStarts(used, max, amount, 32 * i + k, 32 * i + k + n + 1)
    requires WordOutcome(used, max, amount, i, k + n + 1)
    ensures WordOutcome(used, max, amount, i, k)
  {
    assert RunScan(used, max, amount, i, k) == RunScan(used, max, amount, i, k + n + 1);
  }

  /** The run from bit k leaves the word. */
  lemma RunLeaves(used: set<int>, max: nat, amount: nat, i: nat, k: nat, n: nat)
    requires i < max / 32 && k < 32 <= k + n && !WordFull(used, i)
    requires k == 0 || Tests(used, max, 32 * i + k - 1)
    requires n == ClearCount(used, max, 32 * i + k, amount) && n < amount
    ensures RunScan(used, max, amount, i, k) == RunScan(used, max, amount, NextWord(used, max, amount, i), 0)
  {
    LeavesTo(used, max, amount, i, k, n);
    ScanTurn(used, max, amount, i, k, n, i + (k + n) / 32, k + n + 1);
    ScanPast(used, max, amount, i + (k + n) / 32, k + n + 1);
  }

  lemma LeavesTo(used: set<int>, max: nat, amount: nat, i: nat, k: nat, n: nat)
    requires k < 32 <= k + n && (k == 0 || Tests(used, max, 32 * i + k - 1))
    requires n == ClearCount(used, max, 32 * i + k, amount) && n < amount
    ensures NextWord(used, max, amount, i) == i + (k + n) / 32 + 1
  {
    ClearMeans(used, max, 32 * i + k, amount);
    TailIs(used, max, i, k, 32);
  }

  lemma FullOutcome(used: set<int>, max: nat, amount: nat, i: nat)
    requires 0 < amount && i < max / 32 && WordFull(used, i)
    ensures WordOutcome(used, max, amount, i, 0)
  {
    assert Tests(used, max, 32 * i + 31);
    forall b | 32 * i <= b < 32 * i + 32 ensures !FreeRun(used, max, b, amount) {
      UsedBreaks(used, max, b, amount, b);
    }
  }

  /** The search from word i on comes up with the first findable run, and with none only if there is none. */
  ghost predicate FindsFirst(used: set<int>, max: nat, amount: nat, i: nat) {
    var r := RunScan(used, max, amount, i, 0);
    && (r == 0 || Findable(used, max, amount, i, r))
    && (forall b :: Findable(used, max, amount, i, b) ==> 0 < r <= b)
  }

  lemma {:induction false} ScanFindsFirst(used: set<int>, max: nat, amount: nat, i: nat)
    requires 0 in used && 0 < amount
    ensures FindsFirst(used, max, amount, i)
    decreases max / 32 - i
  {
    if i >= max / 32 {
      assert forall b :: Findable(used, max, amount, i, b) ==> b / 32 < max / 32;
    } else {
      if WordFull(used, i) { FullOutcome(used, max, amount, i); } else { WordScan(used, max, amount, i, 0); }
      ScanFindsFirst(used, max, amount, NextWord(used, max, amount, i));
      FirstFromWord(used, max, amount, i);
    }
  }

  lemma FirstFromWord(used: set<int>, max: nat, amount: nat, i: nat)
    requires i < max / 32 && WordOutcome(used, max, amount, i, 0)
    requires FindsFirst(used, max, amount, NextWord(used, max, amount, i))
    ensures FindsFirst(used, max, amount, i)
  {
    var r, j := RunScan(used, max, amount, i, 0), NextWord(used, max, amount, i);
    forall b | Findable(used, max, amount, i, b) ensures 0 < r <= b {
      if 32 * i <= r < 32 * i + 32 && FreeRun(used, max, r, amount) {
        assert 32 * i <= b;
      } else {
        assert Findable(used, max, amount, j, b);
      }
    }
  }

  /** A request is served exactly when the counter admits it and a run is findable, and then with the first
      such run. It ends past the last block exactly when every findable run does. */
  lemma RunFoundExactly(used: set<int>, max: nat, counter: Word, amount: Word)
    requires 0 in used
    ensures var r := RunResult(used, max, counter, amount);
            && (r != 0 <==> amount <= (max - counter) % WRAP && exists b :: Findable(used, max, amount, 0, b))
            && (r != 0 ==> Findable(used, max, amount, 0, r)
                           && forall b :: Findable(used, max, amount, 0, b) ==> r <= b)
            && (r != 0 ==> (r + amount == max + 1 <==>
                            forall b :: Findable(used, max, amount, 0, b) ==> b + amount == max + 1))
  {
    if amount > 0 { ScanFindsFirst(used, max, amount, 0); } else { NoRunOfNone(used, max, 0, 0); }
  }

  lemma {:induction false} NoRunOfNone(used: set<int>, max: nat, i: nat, k: nat)
    ensures RunScan(used, max, 0, i, k) == 0
    decreases max / 32 - i, 32 - k
  {
    if i < max / 32 {
      if k >= 32 || (k == 0 && WordFull(used, i)) { NoRunOfNone(used, max, i + 1, 0); }
      else { NoRunOfNone(used, max, i, k + 1); }
    }
  }

  /** Every run of clear bits shorter than `amount` ends in the word it starts in. */
  ghost predicate ShortRunsStay(used: set<int>, max: int, amount: nat) {
    forall b: nat :: var n := ClearCount(used, max, b, amount); 0 < n < amount ==> b / 32 == (b + n) / 32
  }

  /** Then the search misses nothing: it finds the first free run, and none only if there is none. */
  lemma RunFound(used: set<int>, max: nat, counter: Word, amount: Word, b: int)
    requires 0 in used && amount <= (max - counter) % WRAP && ShortRunsStay(used, max, amount)
    requires b < max / 32 * 32 && FreeRun(used, max, b, amount)
    ensures 0 < RunResult(used, max, counter, amount) <= b
  {
    AllEntered(used, max, amount, 0, b / 32);
    assert Findable(used, max, amount, 0, b);
    RunFoundExactly(used, max, counter, amount);
  }

  lemma {:induction false} AllEntered(used: set<int>, max: nat, amount: nat, i: nat, w: nat)
    requires ShortRunsStay(used, max, amount) && i <= w && 0 < amount
    ensures Entered(used, max, amount, i, w)
    decreases w - i
  {
    if i < w {
      NextIsNext(used, max, amount, i);
      AllEntered(used, max, amount, i + 1, w);
    }
  }

  lemma NextIsNext(used: set<int>, max: nat, amount: nat, i: nat)
    requires ShortRunsStay(used, max, amount) && 0 < amount
    ensures NextWord(used, max, amount, i) == i + 1
  {
    var t := TailStart(used, max, i);
    var n := ClearCount(used, max, 32 * i + t, amount);
    if t < 32 && n < amount {
      TailClear(used, max, i, 32);
      assert n > 0;
    }
  }

  lemma {:induction false} TailClear(used: set<int>, max: int, i: nat, k: nat)
    requires k <= 32
    ensures var t := TailStart(used, max, i, k);
            t < k ==> !Tests(used, max, 32 * i + t)
  {
    if k > 0 && !Tests(used, max, 32 * i + k - 1) { TailClear(used, max, i, k - 1); }
  }

  /** A run handed out may end past the last block: of 64 blocks, 5 and 63 are free, and the bit at the count
      is clear; a request for two gets blocks 63 and 64. */
  lemma RunPastEnd(used: set<int>)
    requires forall b :: 0 <= b <= 64 ==> (b in used <==> b != 5 && b < 63)
    ensures RunResult(used, 64, 62, 2) == 63 && !(63 + 2 <= 64)
  {
    assert 0 in used && 31 in used && 63 !in used && 64 !in used;
    assert Run(63, 2) !! used;
    assert Tests(used, 64, 31) && TailStart(used, 64, 0) == 32 && NextWord(used, 64, 2, 0) == 1;
    assert Findable(used, 64, 2, 0, 63);
    RunFoundExactly(used, 64, 62, 2);
    forall b | Findable(used, 64, 2, 0, b) ensures b == 63 {
      assert InRun(b, b, 2) && InRun(b + 1, b, 2) && b in Run(b, 2) && b + 1 in Run(b, 2);
    }
  }

  lemma {:induction false} PassUsed(used: set<int>, max: nat, amount: nat, i: nat, k: nat, l: nat)
    requires i < max / 32 && k <= l <= 32 && !WordFull(used, i)
    requires forall b :: 32 * i + k <= b < 32 * i + l ==> b in used
    ensures RunScan(used, max, amount, i, k) == RunScan(used, max, amount, i, l)
    decreases l - k
  {
    if k < l { PassUsed(used, max, amount, i, k + 1, l); }
  }

  /** A run that exists may be missed: of 64 blocks, 0..30 and 32 are in use, and a request for two finds none,
      though 33 and 34 are free. */
  lemma RunMissed(used: set<int>)
    requires forall b :: 0 <= b <= 64 ==> (b in used <==> b < 31 || b == 32)
    ensures RunResult(used, 64, 32, 2) == 0 && FreeRun(used, 64, 33, 2)
  {
    assert 31 !in used;
    PassUsed(used, 64, 2, 0, 0, 31);
    assert ClearCount(used, 64, 32, 1) == 0;
    assert ClearCount(used, 64, 31, 2) == 1 + ClearCount(used, 64, 32, 1);
    assert RunScan(used, 64, 2, 0, 31) == RunScan(used, 64, 2, 1, 33) == RunScan(used, 64, 2, 2, 0);
  }
}
