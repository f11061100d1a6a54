/** The roulette of one stage: the repeated card strip shown while idle,
    the strip built for a spin, and the spin itself as a state machine with
    guarded transitions. Randomness arrives as draws in [0, 1), the values
    `Math.random()` would return; wall-clock time arrives as elapsed
    milliseconds. Pixel offsets and easing are not modelled: a frame hands
    the machine the card index under the marker. */
module Roulette {
  import opened Wrappers

  /** Cards the idle strip holds at least. */
  const MinIdleCards: nat := 48
  /** Times the pool is repeated in the idle strip at least. */
  const MinRepeats: nat := 6
  /** First slot the spin may land on; it lands in one of the next eight. */
  const LandingWindowStart: nat := 44
  const LandingWindowSize: nat := 8
  /** Minimum length of a spin strip, and cards kept after the landing slot. */
  const MinRollCards: nat := 52
  const CardsAfterLanding: nat := 10

  function Max(a: int, b: int): int {
    if a < b then b else a
  }

  /** `Math.ceil(a / b)`. */
  function CeilDiv(a: nat, b: nat): (q: nat)
    requires b > 0
    ensures q * b >= a
    ensures q == 0 || (q - 1) * b < a
  {
    var q := (a + b - 1) / b;
    assert (a + b - 1) == q * b + (a + b - 1) % b;
    q
  }

  /** `k` copies of `pool` back to back. */
  function Repeat<T>(pool: seq<T>, k: nat): (r: seq<T>)
    ensures |r| == k * |pool|
  {
    if k == 0 then [] else pool + Repeat(pool, k - 1)
  }

  lemma {:induction false} RepeatIndex<T>(pool: seq<T>, k: nat, i: nat)
    requires |pool| > 0 && i < k * |pool|
    ensures Repeat(pool, k)[i] == pool[i % |pool|]
  {
    var n := |pool|;
    var rest := Repeat(pool, k - 1);
    assert Repeat(pool, k) == pool + rest;
    if i < n {
      assert i % n == i;
    } else {
      MulPred(k, n);
      RepeatIndex(pool, k - 1, i - n);
      ModShift(i, n);
    }
  }

  lemma MulPred(k: nat, n: nat)
    requires k > 0
    ensures (k - 1) * n == k * n - n
  {
  }

  lemma ModShift(i: nat, n: nat)
    requires 0 < n <= i
    ensures (i - n) % n == i % n
  {
    var j := i - n;
    var q := j / n;
    var m := j % n;
    assert j == q * n + m;
    assert i == (q + 1) * n + m;
    DivModUnique(i, n, q + 1, m);
  }

  lemma DivModUnique(i: int, n: int, q: int, m: int)
    requires n > 0 && 0 <= m < n && i == q * n + m
    ensures i % n == m
  {
    var q' := i / n;
    var m' := i % n;
    assert i == q' * n + m';
    assert (q - q') * n == m' - m;
    if q' < q {
      AtLeastOnce(q - q', n);
    } else if q' > q {
      AtLeastOnce(q' - q, n);
    }
  }

  lemma AtLeastOnce(a: int, n: int)
    requires a >= 1 && n > 0
    ensures a * n >= n
  {
    assert a * n == (a - 1) * n + n;
  }

  /** `makeRepeatedItems`: the idle strip, the pool repeated
      `max(6, ceil(48 / n))` times. */
  function MakeRepeated<T>(pool: seq<T>): (r: seq<T>)
    ensures |pool| == 0 ==> r == []
    ensures |pool| > 0 ==> |r| == |pool| * Max(MinRepeats, CeilDiv(MinIdleCards, |pool|))
    ensures |pool| > 0 ==> |r| >= MinIdleCards
    ensures forall i :: 0 <= i < |r| ==> r[i] == pool[i % |pool|]
  {
    if |pool| == 0 then []
    else
      var k: nat := Max(MinRepeats, CeilDiv(MinIdleCards, |pool|));
      var r := Repeat(pool, k);
      assert k * |pool| >= CeilDiv(MinIdleCards, |pool|) * |pool|;
      forall i | 0 <= i < |r|
        ensures r[i] == pool[i % |pool|]
      {
        RepeatIndex(pool, k, i);
      }
      r
  }

  /** `Math.floor(r * n)` for a draw `r` in [0, 1). */
  function DrawIndex(r: real, n: nat): (i: nat)
    requires 0.0 <= r < 1.0 && n > 0
    ensures i < n
  {
    var x := r * n as real;
    assert x < n as real;
    x.Floor
  }

  /** `pickRandom`. */
  function Pick<T>(pool: seq<T>, r: real): (x: T)
    requires |pool| > 0 && 0.0 <= r < 1.0
    ensures x in pool
  {
    pool[DrawIndex(r, |pool|)]
  }

  /** `44 + Math.floor(Math.random() * 8)`. */
  function LandingSlot(r: real): (slot: nat)
    requires 0.0 <= r < 1.0
    ensures LandingWindowStart <= slot < LandingWindowStart + LandingWindowSize
  {
    LandingWindowStart + DrawIndex(r, LandingWindowSize)
  }

  function RollLength(finalIndex: nat): nat {
    Max(MinRollCards, finalIndex + CardsAfterLanding)
  }

  predicate Draws(draws: seq<real>) {
    forall i :: 0 <= i < |draws| ==> 0.0 <= draws[i] < 1.0
  }

  /** `buildRollItems`: a fresh strip in which slot `finalIndex` holds the
      winner and every other slot `i` is the pool card picked by draw `i`. */
  function BuildRollItems<T>(pool: seq<T>, finalIndex: nat, winner: T, draws: seq<real>): (r: seq<T>)
    requires |pool| > 0 && Draws(draws) && |draws| >= RollLength(finalIndex)
    ensures |r| == RollLength(finalIndex) && |r| >= MinRollCards && finalIndex < |r|
    ensures r[finalIndex] == winner
    ensures forall i :: 0 <= i < |r| && i != finalIndex ==> r[i] == Pick(pool, draws[i])
  {
    seq(RollLength(finalIndex), i requires 0 <= i < RollLength(finalIndex) =>
      if i == finalIndex then winner else Pick(pool, draws[i]))
  }

  /** One roulette. `pending` is the winner of the spin in progress and
      `target` its landing slot; `lastTick` is the card index under the
      marker at the previous observation. */
  datatype Wheel<T> = Wheel(
    items: seq<T>,
    display: seq<T>,
    rolling: bool,
    selected: Option<T>,
    lastTick: Option<int>,
    pending: Option<T>,
    target: nat)

  /** A spin is in progress exactly when it has a winner waiting. */
  predicate Valid<T>(w: Wheel<T>) {
    w.rolling <==> w.pending.Some?
  }

  function Init<T>(items: seq<T>): (w: Wheel<T>)
    ensures Valid(w) && !w.rolling && w.selected.None? && w.items == items
  {
    Wheel(items, MakeRepeated(items), false, None, None, None, 0)
  }

  /** The idle drift runs while there is a pool, no spin and no result. */
  predicate Drifting<T>(w: Wheel<T>) {
    |w.items| > 0 && !w.rolling && w.selected.None?
  }

  /** The pool changed: the strip is rebuilt from it. A spin in progress
      keeps its winner. */
  function SetItems<T>(w: Wheel<T>, items: seq<T>): (r: Wheel<T>)
    ensures Valid(w) ==> Valid(r)
    ensures r.items == items && r.rolling == w.rolling && r.pending == w.pending && r.selected == w.selected
  {
    w.(items := items, display := MakeRepeated(items))
  }

  /** The draw count a spin may consume: one per strip slot. */
  const MaxRollDraws: nat := LandingWindowStart + LandingWindowSize - 1 + CardsAfterLanding

  /** `roll`: refused while the pool is empty or a spin is running;
      otherwise picks the winner and the landing slot, builds the strip,
      clears the previous result and starts spinning. */
  function Roll<T>(w: Wheel<T>, winnerDraw: real, slotDraw: real, draws: seq<real>): (r: Wheel<T>)
    requires 0.0 <= winnerDraw < 1.0 && 0.0 <= slotDraw < 1.0
    requires Draws(draws) && |draws| >= MaxRollDraws
    ensures |w.items| == 0 || w.rolling ==> r == w
    ensures Valid(w) ==> Valid(r)
    ensures |w.items| > 0 && !w.rolling ==>
      && r.rolling && r.selected.None? && r.lastTick.None?
      && r.items == w.items
      && r.pending.Some? && r.pending.value in w.items
      && LandingWindowStart <= r.target < LandingWindowStart + LandingWindowSize
      && MinRollCards <= |r.display| && r.target < |r.display|
      && r.display[r.target] == r.pending.value
      && (forall i :: 0 <= i < |r.display| ==> r.display[i] in w.items)
  {
    if |w.items| == 0 || w.rolling then w
    else
      var winner := Pick(w.items, winnerDraw);
      var slot := LandingSlot(slotDraw);
      var strip := BuildRollItems(w.items, slot, winner, draws);
      w.(display := strip, rolling := true, selected := None, lastTick := None,
         pending := Some(winner), target := slot)
  }

  /** The tick watcher, run whenever the strip moves: outside a spin it
      forgets the last index; the first observation of a spin only records
      the index; afterwards a tick fires exactly when the index changed. */
  function Observe<T>(w: Wheel<T>, index: int): (r: (Wheel<T>, bool))
    ensures !w.rolling ==> r.0 == w.(lastTick := None) && !r.1
    ensures w.rolling ==> r.0 == w.(lastTick := Some(index))
    ensures r.1 <==> w.rolling && w.lastTick.Some? && w.lastTick.value != index
  {
    if !w.rolling then (w.(lastTick := None), false)
    else if w.lastTick.None? then (w.(lastTick := Some(index)), false)
    else if index != w.lastTick.value then (w.(lastTick := Some(index)), true)
    else (w, false)
  }

  /** An animation frame `elapsedMs` after the spin started. Once the
      duration has passed the spin lands: it stops, forgets the tick index,
      shows the winner as the result and reports it exactly this once. */
  function Frame<T>(w: Wheel<T>, elapsedMs: int, durationMs: nat): (r: (Wheel<T>, Option<T>))
    requires Valid(w)
    ensures Valid(r.0)
    ensures !w.rolling || elapsedMs < durationMs ==> r == (w, None)
    ensures w.rolling && elapsedMs >= durationMs ==>
      && !r.0.rolling && r.0.lastTick.None?
      && r.1.Some? && r.0.selected == r.1 && r.1 == w.pending
      && r.0.items == w.items && r.0.display == w.display
  {
    if !w.rolling || elapsedMs < durationMs then (w, None)
    else (w.(rolling := false, lastTick := None, selected := w.pending, pending := None), w.pending)
  }

  /** The user asks for another draw: the result is cleared, which puts the
      wheel back in the state in which the idle drift runs. The landed strip
      stays in `display`; the drift loop, which is left out, is what rebuilds
      it with `makeRepeatedItems` (src/App.js:1393). */
  function ClearSelection<T>(w: Wheel<T>): (r: Wheel<T>)
    ensures Valid(w) ==> Valid(r)
    ensures r.selected.None?
    ensures |w.items| > 0 && !w.rolling ==> Drifting(r)
  {
    w.(selected := None)
  }

  /** A full spin: the reported winner is the card on the landing slot, it
      becomes the stage's result, and a later frame reports nothing more. */
  lemma SpinLandsOnWinner<T>(w: Wheel<T>, winnerDraw: real, slotDraw: real, draws: seq<real>,
                            elapsedMs: int, laterMs: int, durationMs: nat)
    requires Valid(w) && |w.items| > 0 && !w.rolling
    requires 0.0 <= winnerDraw < 1.0 && 0.0 <= slotDraw < 1.0
    requires Draws(draws) && |draws| >= MaxRollDraws
    requires elapsedMs >= durationMs
    ensures var s := Roll(w, winnerDraw, slotDraw, draws);
            var (landed, event) := Frame(s, elapsedMs, durationMs);
            && event.Some? && event.value == s.display[s.target]
            && landed.selected == event && !landed.rolling
            && Frame(landed, laterMs, durationMs).1.None?
  {
  }

  /** Number of adjacent positions where the index changes. */
  function Changes(indices: seq<int>): nat {
    if |indices| < 2 then 0
    else (if indices[0] != indices[1] then 1 else 0) + Changes(indices[1..])
  }

  /** Feeds the observed indices to the tick watcher; returns the final
      state and the number of ticks fired. */
  function RunTicks<T>(w: Wheel<T>, indices: seq<int>): (Wheel<T>, nat)
    decreases |indices|
  {
    if |indices| == 0 then (w, 0)
    else
      var (w1, fired) := Observe(w, indices[0]);
      var (w2, n) := RunTicks(w1, indices[1..]);
      (w2, n + (if fired then 1 else 0))
  }

  lemma {:induction false} RunTicksFrom<T>(w: Wheel<T>, k: int, indices: seq<int>)
    requires w.rolling && w.lastTick == Some(k)
    ensures RunTicks(w, indices).1 == Changes([k] + indices)
    decreases |indices|
  {
    if |indices| > 0 {
      var (w1, fired) := Observe(w, indices[0]);
      RunTicksFrom(w1, indices[0], indices[1..]);
      assert ([k] + indices)[1..] == [indices[0]] + indices[1..];
    }
  }

  /** Ticks are edge-triggered: during a spin that starts with no recorded
      index, the watcher fires once per change of index between consecutive
      observations, so a marker resting on one card never ticks twice. */
  lemma TicksCountIndexChanges<T>(w: Wheel<T>, indices: seq<int>)
    requires w.rolling && w.lastTick.None?
    ensures RunTicks(w, indices).1 == Changes(indices)
  {
    if |indices| > 0 {
      var (w1, _) := Observe(w, indices[0]);
      RunTicksFrom(w1, indices[0], indices[1..]);
      assert [indices[0]] + indices[1..] == indices;
    }
  }
}
