/**
 * The quantum coin widget. In single mode one coin spins until it is caught,
 * which fixes it to heads or tails. After three catches the 100-coin mode is
 * offered: an observation wave sweeps a 10 by 10 grid column by column over
 * two seconds, collapsing the spinning coins it has passed, and every coin
 * left spinning is collapsed when the wave ends.
 */
module QuantumCoin {
  datatype CoinState = Spinning | Heads | Tails

  datatype Mode = Single | Macro

  const GridSize: nat := 100
  const Columns: nat := 10
  const WaveDuration: real := 2000.0

  /** `Math.random() > 0.5 ? 'heads' : 'tails'` for the drawn number `r`. */
  function Flip(r: real): (c: CoinState)
    ensures c != Spinning
    ensures c == Heads <==> r > 0.5
  {
    if r > 0.5 then Heads else Tails
  }

  /** `filter(c => c === state).length`. */
  function Count(coins: seq<CoinState>, state: CoinState): (n: nat)
    ensures n <= |coins|
  {
    if coins == [] then 0 else (if coins[0] == state then 1 else 0) + Count(coins[1..], state)
  }

  /** Every coin is in exactly one of the three states. */
  lemma {:induction false} CountsAddUp(coins: seq<CoinState>)
    ensures Count(coins, Heads) + Count(coins, Tails) + Count(coins, Spinning) == |coins|
    decreases |coins|
  {
    if coins != [] {
      CountsAddUp(coins[1..]);
    }
  }

  /** No state is counted where it does not occur. */
  lemma {:induction false} CountZero(coins: seq<CoinState>, state: CoinState)
    ensures Count(coins, state) == 0 <==> forall k :: 0 <= k < |coins| ==> coins[k] != state
    decreases |coins|
  {
    if coins != [] {
      CountZero(coins[1..], state);
      assert forall k :: 1 <= k < |coins| ==> coins[k] == coins[1..][k - 1];
    }
  }

  /** The counters shown under the grid never exceed its size. */
  lemma HeadsPlusTailsBounded(coins: seq<CoinState>)
    ensures Count(coins, Heads) + Count(coins, Tails) <= |coins|
    ensures Count(coins, Heads) + Count(coins, Tails) == |coins| <==> forall k :: 0 <= k < |coins| ==> coins[k] != Spinning
  {
    CountsAddUp(coins);
    CountZero(coins, Spinning);
  }

  // ---------------------------------------------------------------------
  // the wave

  /** `Math.min((elapsed / duration) * 100, 100)`. */
  function WaveProgress(elapsed: real): (p: real)
    ensures p <= 100.0
    ensures p == 100.0 <==> elapsed >= WaveDuration
  {
    var raw := elapsed / WaveDuration * 100.0;
    if raw < 100.0 then raw else 100.0
  }

  /** `Math.floor(progress / 10)`: how many columns the wave has passed. */
  function CollapsedCols(progress: real): (cols: int)
    ensures progress <= 100.0 ==> cols <= Columns as int
    ensures cols >= Columns as int <==> progress >= 100.0
  {
    (progress / 10.0).Floor
  }

  /**
   * One frame's collapse: coin `i` sits in column `i % 10`; a spinning coin in a
   * passed column takes the outcome of `rolls[i]`, every other coin stays.
   */
  function Collapsed(prev: seq<CoinState>, cols: int, rolls: seq<real>): (next: seq<CoinState>)
    requires |rolls| >= |prev|
    ensures |next| == |prev|
  {
    seq(|prev|, i requires 0 <= i < |prev| =>
      if i % Columns < cols && prev[i] == Spinning then Flip(rolls[i]) else prev[i])
  }

  /** The body of `setMacroCoins(prev => ...)` in `animateWave`: a copy updated cell by cell. */
  method CollapseStep(prev: seq<CoinState>, cols: int, rolls: seq<real>) returns (next: seq<CoinState>)
    requires |prev| == GridSize && |rolls| == GridSize
    ensures next == Collapsed(prev, cols, rolls)
  {
    var a := new CoinState[GridSize](k requires 0 <= k < GridSize => prev[k]);
    for i := 0 to GridSize
      invariant forall k :: 0 <= k < i ==> a[k] == Collapsed(prev, cols, rolls)[k]
      invariant forall k :: i <= k < GridSize ==> a[k] == prev[k]
    {
      var col := i % Columns;
      if col < cols && a[i] == Spinning {
        a[i] := Flip(rolls[i]);
      }
    }
    next := a[..];
  }

  /** A coin that has collapsed never changes again, and a coin changes only in a passed column. */
  lemma CollapsedKeepsDecided(prev: seq<CoinState>, cols: int, rolls: seq<real>, i: nat)
    requires |rolls| >= |prev| && i < |prev|
    ensures prev[i] != Spinning ==> Collapsed(prev, cols, rolls)[i] == prev[i]
    ensures i % Columns >= cols ==> Collapsed(prev, cols, rolls)[i] == prev[i]
    ensures prev[i] == Spinning && i % Columns < cols ==> Collapsed(prev, cols, rolls)[i] != Spinning
  {
  }

  /** Once the wave has passed all ten columns, no coin is left spinning. */
  lemma FullSweepCollapsesAll(prev: seq<CoinState>, cols: int, rolls: seq<real>)
    requires |rolls| >= |prev| && cols >= Columns as int
    ensures forall k :: 0 <= k < |prev| ==> Collapsed(prev, cols, rolls)[k] != Spinning
  {
  }

  /** `prev.map(c => c === 'spinning' ? flip : c)` when the wave ends. */
  function FinalCollapse(prev: seq<CoinState>, rolls: seq<real>): (next: seq<CoinState>)
    requires |rolls| >= |prev|
    ensures |next| == |prev|
    ensures forall k :: 0 <= k < |prev| ==> next[k] != Spinning
    ensures forall k :: 0 <= k < |prev| && prev[k] != Spinning ==> next[k] == prev[k]
  {
    seq(|prev|, i requires 0 <= i < |prev| => if prev[i] == Spinning then Flip(rolls[i]) else prev[i])
  }

  /** `disabled={isWaveActive || (macroHeads + macroTails === 100 && macroHeads > 0)}`. */
  predicate WaveButtonDisabled(isWaveActive: bool, coins: seq<CoinState>)
  {
    isWaveActive || (Count(coins, Heads) + Count(coins, Tails) == GridSize && Count(coins, Heads) > 0)
  }

  /** After a finished wave the button stays disabled, unless all hundred coins came up tails. */
  lemma DisabledAfterWave(coins: seq<CoinState>)
    requires |coins| == GridSize && forall k :: 0 <= k < |coins| ==> coins[k] != Spinning
    ensures WaveButtonDisabled(false, coins) <==> exists k :: 0 <= k < |coins| && coins[k] == Heads
  {
    HeadsPlusTailsBounded(coins);
    CountZero(coins, Heads);
  }

  /** A fresh grid of spinning coins leaves the button enabled. */
  lemma EnabledOnFreshGrid(coins: seq<CoinState>)
    requires forall k :: 0 <= k < |coins| ==> coins[k] == Spinning
    ensures !WaveButtonDisabled(false, coins)
  {
    CountZero(coins, Heads);
    CountZero(coins, Tails);
  }

  // ---------------------------------------------------------------------
  // the component's state

  class Coin {
    var singleCoinState: CoinState
    var clickCount: nat
    var mode: Mode
    var macroCoins: seq<CoinState>
    var isWaveActive: bool
    var waveProgress: real

    ghost predicate Valid()
      reads this
    {
      |macroCoins| == GridSize && waveProgress <= 100.0
    }

    constructor ()
      ensures Valid()
      ensures singleCoinState == Spinning && clickCount == 0 && mode == Single
      ensures macroCoins == seq(GridSize, _ => Spinning) && !isWaveActive && waveProgress == 0.0
    {
      singleCoinState := Spinning;
      clickCount := 0;
      mode := Single;
      macroCoins := seq(GridSize, _ => Spinning);
      isWaveActive := false;
      waveProgress := 0.0;
    }

    /** The mode tabs appear after the third catch. */
    predicate TabsVisible()
      reads this
    {
      clickCount >= 3
    }

    /** `catchSingleCoin`: only a spinning coin can be caught; `r` is the random number drawn. */
    method CatchSingleCoin(r: real)
      requires Valid()
      modifies this`singleCoinState, this`clickCount
      ensures Valid()
      ensures old(singleCoinState) != Spinning ==> singleCoinState == old(singleCoinState) && clickCount == old(clickCount)
      ensures old(singleCoinState) == Spinning ==> singleCoinState == Flip(r) && clickCount == old(clickCount) + 1
    {
      if singleCoinState != Spinning {
        return;
      }
      singleCoinState := Flip(r);
      clickCount := clickCount + 1;
    }

    /** `resetSingle`: the coin spins again; the catch count is kept. */
    method ResetSingle()
      requires Valid()
      modifies this`singleCoinState
      ensures Valid()
      ensures singleCoinState == Spinning
    {
      singleCoinState := Spinning;
    }

    /** A mode tab: the tabs are only drawn once they are visible. */
    method SetMode(m: Mode)
      requires Valid() && TabsVisible()
      modifies this`mode
      ensures Valid()
      ensures mode == m
    {
      mode := m;
    }

    /** `startWave`: ignored while a wave runs; otherwise a fresh spinning grid and progress 0. */
    method StartWave()
      requires Valid()
      modifies this`macroCoins, this`isWaveActive, this`waveProgress
      ensures Valid()
      ensures old(isWaveActive) ==> macroCoins == old(macroCoins) && isWaveActive && waveProgress == old(waveProgress)
      ensures !old(isWaveActive) ==> macroCoins == seq(GridSize, _ => Spinning) && isWaveActive && waveProgress == 0.0
    {
      if isWaveActive {
        return;
      }
      macroCoins := seq(GridSize, _ => Spinning);
      isWaveActive := true;
      waveProgress := 0.0;
    }

    /**
     * One `animateWave` frame, `elapsed` milliseconds after the wave started. `rolls[i]` is
     * the number drawn for coin `i` in this frame's collapse and `finalRolls[i]` the one
     * drawn for it in the final collapse. Without an active wave no frame runs.
     */
    method AnimateFrame(elapsed: real, rolls: seq<real>, finalRolls: seq<real>)
      requires Valid() && |rolls| == GridSize && |finalRolls| == GridSize
      modifies this`macroCoins, this`isWaveActive, this`waveProgress
      ensures Valid()
      ensures !old(isWaveActive) ==> macroCoins == old(macroCoins) && !isWaveActive && waveProgress == old(waveProgress)
      ensures old(isWaveActive) ==> waveProgress == WaveProgress(elapsed)
      ensures old(isWaveActive) ==> isWaveActive == (waveProgress < 100.0)
      ensures old(isWaveActive) ==> (macroCoins ==
        var stepped := Collapsed(old(macroCoins), CollapsedCols(waveProgress), rolls);
        if waveProgress < 100.0 then stepped else FinalCollapse(stepped, finalRolls))
    {
      if !isWaveActive {
        return;
      }
      var progress := WaveProgress(elapsed);
      waveProgress := progress;
      var cols := CollapsedCols(progress);
      macroCoins := CollapseStep(macroCoins, cols, rolls);
      if progress >= 100.0 {
        isWaveActive := false;
        macroCoins := FinalCollapse(macroCoins, finalRolls);
      }
    }
  }

  /** A frame that ends the wave leaves no coin spinning, and the wave button disabled unless all are tails. */
  lemma WaveEndsCollapsed(prev: seq<CoinState>, rolls: seq<real>, finalRolls: seq<real>)
    requires |prev| == GridSize && |rolls| == GridSize && |finalRolls| == GridSize
    ensures var final := FinalCollapse(Collapsed(prev, CollapsedCols(100.0), rolls), finalRolls);
      Count(final, Heads) + Count(final, Tails) == GridSize
      && (WaveButtonDisabled(false, final) <==> Count(final, Heads) > 0)
  {
    var final := FinalCollapse(Collapsed(prev, CollapsedCols(100.0), rolls), finalRolls);
    HeadsPlusTailsBounded(final);
  }
}
