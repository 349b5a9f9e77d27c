/**
 * The Standard-Model deduction puzzle: six particles, shuffled and given
 * random colours on mount, are dragged onto three jars (quarks, leptons,
 * bosons). A drop is recorded only on the particle's own jar; the puzzle is
 * solved when all six are sorted.
 */
module StandardModelSorter {
  import opened Wrappers

  datatype ParticleType = Quark | Lepton | Boson

  /** A particle's identity, its jar and its display colour (labels, icons and clues are text only). */
  datatype Particle = Particle(id: string, ptype: ParticleType, color: string)

  const Particles: seq<Particle> := [
    Particle("up", Quark, "#ec4899"),
    Particle("down", Quark, "#ec4899"),
    Particle("electron", Lepton, "#06b6d4"),
    Particle("muon", Lepton, "#06b6d4"),
    Particle("photon", Boson, "#eab308"),
    Particle("gluon", Boson, "#eab308")
  ]

  /** The jars in the order they are rendered, and so the order their refs are visited. */
  const Jars: seq<ParticleType> := [Quark, Lepton, Boson]

  const Colours: seq<string> := ["#ef4444", "#f97316", "#eab308", "#84cc16", "#06b6d4", "#3b82f6", "#8b5cf6", "#d946ef"]

  // ---------------------------------------------------------------------
  // shuffleArray: Fisher-Yates on a copy

  /** Values of `Math.random()`, one per step: all in [0, 1). */
  predicate ValidRolls(rolls: seq<real>)
  {
    forall k :: 0 <= k < |rolls| ==> 0.0 <= rolls[k] < 1.0
  }

  /** `Math.floor(r * (i + 1))`: the partner of position `i`, never past `i`. */
  function SwapIndex(r: real, i: nat): (j: nat)
    requires 0.0 <= r < 1.0
    ensures j <= i
  {
    var n := (i + 1) as real;
    MulBelow(r, n);
    (r * n).Floor
  }

  lemma MulBelow(r: real, n: real)
    requires 0.0 <= r < 1.0 && n > 0.0
    ensures 0.0 <= r * n < n
  {
    var d := 1.0 - r;
    assert d * n > 0.0;
    assert n - r * n == d * n;
  }

  /** `[s[i], s[j]] = [s[j], s[i]]`. */
  function Swap<T>(s: seq<T>, i: nat, j: nat): (t: seq<T>)
    requires i < |s| && j < |s|
    ensures |t| == |s| && multiset(t) == multiset(s)
  {
    var t := seq(|s|, k requires 0 <= k < |s| => if k == j then s[i] else if k == i then s[j] else s[k]);
    assert t == s[i := s[j]][j := s[i]];
    t
  }

  lemma SwapIsUpdate<T>(s: seq<T>, i: nat, j: nat)
    requires i < |s| && j < |s|
    ensures Swap(s, i, j) == s[i := s[j]][j := s[i]]
  {
  }

  /** The partners drawn for every step: step `k` swaps position `k` with `Picks(rolls)[k]`. */
  function Picks(rolls: seq<real>): (picks: seq<nat>)
    requires ValidRolls(rolls)
    ensures |picks| == |rolls| && ValidPicks(picks)
  {
    seq(|rolls|, k requires 0 <= k < |rolls| => SwapIndex(rolls[k], k))
  }

  predicate ValidPicks(picks: seq<nat>)
  {
    forall k :: 0 <= k < |picks| ==> picks[k] <= k
  }

  /** The list once the steps `|s| - 1`, `|s| - 2`, ..., `i + 1` have swapped their positions. */
  function ShuffleSteps<T>(s: seq<T>, picks: seq<nat>, i: nat): (t: seq<T>)
    requires i < |s| && |picks| == |s| && ValidPicks(picks)
    ensures |t| == |s|
    decreases |s| - i
  {
    if i == |s| - 1 then s
    else Swap(ShuffleSteps(s, picks, i + 1), i + 1, picks[i + 1])
  }

  /** Each step is a swap, so the steps together only reorder. */
  lemma {:induction false} ShuffleStepsPermute<T>(s: seq<T>, picks: seq<nat>, i: nat)
    requires i < |s| && |picks| == |s| && ValidPicks(picks)
    ensures multiset(ShuffleSteps(s, picks, i)) == multiset(s)
    decreases |s| - i
  {
    if i < |s| - 1 {
      ShuffleStepsPermute(s, picks, i + 1);
    }
  }

  /** The whole shuffle: from the last position down to position 1. */
  function Shuffled<T>(s: seq<T>, rolls: seq<real>): (t: seq<T>)
    requires |rolls| == |s| && ValidRolls(rolls)
    ensures |t| == |s| && multiset(t) == multiset(s)
  {
    if |s| == 0 then s
    else
      ShuffleStepsPermute(s, Picks(rolls), 0);
      ShuffleSteps(s, Picks(rolls), 0)
  }

  /**
   * `shuffleArray(array)`: the input is copied into a new array, which is shuffled in place;
   * `rolls[i]` is the random number drawn at step `i`.
   */
  method ShuffleArray<T>(input: seq<T>, rolls: seq<real>) returns (shuffled: seq<T>)
    requires |rolls| == |input| && ValidRolls(rolls)
    ensures shuffled == Shuffled(input, rolls)
  {
    if |input| == 0 {
      return input;
    }
    var a := new T[|input|](k requires 0 <= k < |input| => input[k]);
    assert a[..] == input;
    ShuffleInPlace(a, rolls);
    shuffled := a[..];
  }

  /** The `for` loop of `shuffleArray`, from the last position down to position 1. */
  method ShuffleInPlace<T>(a: array<T>, rolls: seq<real>)
    requires 0 < a.Length == |rolls| && ValidRolls(rolls)
    modifies a
    ensures a[..] == ShuffleSteps(old(a[..]), Picks(rolls), 0)
  {
    ghost var picks := Picks(rolls);
    ghost var input := a[..];
    var i := a.Length - 1;
    while i > 0
      invariant 0 <= i < a.Length
      invariant a[..] == ShuffleSteps(input, picks, i)
    {
      var j := SwapIndex(rolls[i], i);
      PickAt(rolls, i);
      ghost var before := a[..];
      a[i], a[j] := a[j], a[i];
      assert a[..] == before[i := before[j]][j := before[i]];
      SwapIsUpdate(before, i, j);
      assert ShuffleSteps(input, picks, i - 1) == Swap(before, i, j);
      i := i - 1;
    }
  }

  lemma PickAt(rolls: seq<real>, i: nat)
    requires ValidRolls(rolls) && i < |rolls|
    ensures Picks(rolls)[i] == SwapIndex(rolls[i], i)
  {
  }

  /** Nothing is lost, duplicated or invented by the shuffle. */
  lemma ShuffledIsPermutation<T>(s: seq<T>, rolls: seq<real>, x: T)
    requires |rolls| == |s| && ValidRolls(rolls)
    ensures x in Shuffled(s, rolls) <==> x in s
    ensures multiset(Shuffled(s, rolls))[x] == multiset(s)[x]
  {
    var t := Shuffled(s, rolls);
    assert x in t <==> x in multiset(t);
    assert x in s <==> x in multiset(s);
  }

  /** A single-element or empty list is left as it is. */
  lemma ShortListUnchanged<T>(s: seq<T>, rolls: seq<real>)
    requires |rolls| == |s| && ValidRolls(rolls) && |s| <= 1
    ensures Shuffled(s, rolls) == s
  {
  }

  // ---------------------------------------------------------------------
  // colour assignment on mount

  /** `shuffled.map((p, index) => ({ ...p, color: colours[index % colours.length] }))`. */
  function AssignColours(ps: seq<Particle>, colours: seq<string>): (r: seq<Particle>)
    requires |colours| > 0
    ensures |r| == |ps|
    ensures forall k :: 0 <= k < |ps| ==>
      r[k].id == ps[k].id && r[k].ptype == ps[k].ptype && r[k].color == colours[k % |colours|]
    ensures forall k :: 0 <= k < |ps| ==> r[k].color in colours
  {
    seq(|ps|, k requires 0 <= k < |ps| => ps[k].(color := colours[k % |colours|]))
  }

  /** With no more particles than colours, particle `k` gets colour `k`, so distinct colours stay distinct. */
  lemma ColoursDistinct(ps: seq<Particle>, colours: seq<string>, i: nat, j: nat)
    requires |ps| <= |colours| && i < |ps| && j < |ps| && i != j
    requires forall m, n :: 0 <= m < n < |colours| ==> colours[m] != colours[n]
    ensures AssignColours(ps, colours)[i].color != AssignColours(ps, colours)[j].color
  {
    ColourAt(ps, colours, i);
    ColourAt(ps, colours, j);
    if i < j {
      assert colours[i] != colours[j];
    } else {
      assert colours[j] != colours[i];
    }
  }

  /** Within the palette's length, particle `k` takes colour `k`. */
  lemma ColourAt(ps: seq<Particle>, colours: seq<string>, k: nat)
    requires k < |ps| && k < |colours|
    ensures AssignColours(ps, colours)[k].color == colours[k]
  {
    ModSmall(k, |colours|);
  }

  lemma ModSmall(k: nat, n: nat)
    requires k < n
    ensures k % n == k
  {
  }

  /** The palette has eight different colours, enough for the six particles. */
  lemma PaletteDistinct()
    ensures forall m, n :: 0 <= m < n < |Colours| ==> Colours[m] != Colours[n]
    ensures |Particles| <= |Colours|
  {
  }

  // ---------------------------------------------------------------------
  // the padded hit test

  datatype Rect = Rect(left: real, top: real, right: real, bottom: real)

  /** A jar's ref: `None` while the element is not mounted. */
  datatype JarRef = JarRef(jar: ParticleType, rect: Option<Rect>)

  const Padding: real := 20.0

  /** The point lies in the jar's rectangle grown by the padding on every side, borders included. */
  predicate Hits(rect: Rect, x: real, y: real)
  {
    rect.left - Padding <= x <= rect.right + Padding && rect.top - Padding <= y <= rect.bottom + Padding
  }

  predicate RefHits(ref: JarRef, x: real, y: real)
  {
    ref.rect.Some? && Hits(ref.rect.value, x, y)
  }

  /** The jar of the last ref that is hit. */
  function LastHit(jars: seq<JarRef>, x: real, y: real): (hit: Option<ParticleType>)
    ensures hit.Some? ==> exists k :: 0 <= k < |jars| && RefHits(jars[k], x, y) && jars[k].jar == hit.value
  {
    if jars == [] then None
    else if RefHits(jars[|jars| - 1], x, y) then Some(jars[|jars| - 1].jar)
    else LastHit(jars[..|jars| - 1], x, y)
  }

  /** The `forEach` over the refs: every hit overwrites the one before. */
  method HitJar(jars: seq<JarRef>, x: real, y: real) returns (hit: Option<ParticleType>)
    ensures hit == LastHit(jars, x, y)
  {
    hit := None;
    for k := 0 to |jars|
      invariant hit == LastHit(jars[..k], x, y)
    {
      assert jars[..k + 1][..k] == jars[..k];
      if jars[k].rect.Some? && Hits(jars[k].rect.value, x, y) {
        hit := Some(jars[k].jar);
      }
    }
    assert jars[..|jars|] == jars;
  }

  /** When several jars are hit, the last one visited wins ... */
  lemma {:induction false} LastHitWins(jars: seq<JarRef>, x: real, y: real, k: nat)
    requires k < |jars| && RefHits(jars[k], x, y)
    requires forall m :: k < m < |jars| ==> !RefHits(jars[m], x, y)
    ensures LastHit(jars, x, y) == Some(jars[k].jar)
    decreases |jars|
  {
    if k < |jars| - 1 {
      var init := jars[..|jars| - 1];
      assert forall m :: k < m < |init| ==> init[m] == jars[m];
      LastHitWins(init, x, y, k);
    }
  }

  /** The refs as the jars register them while rendering: one per jar, in the order of `Jars`. */
  predicate InRenderOrder(jars: seq<JarRef>)
  {
    |jars| == |Jars| && forall k :: 0 <= k < |jars| ==> jars[k].jar == Jars[k]
  }

  /** Visited in render order, overlapping jars are decided bosons first, then leptons, then quarks. */
  lemma RenderOrderHit(jars: seq<JarRef>, x: real, y: real)
    requires InRenderOrder(jars)
    ensures LastHit(jars, x, y) ==
      if RefHits(jars[2], x, y) then Some(Boson)
      else if RefHits(jars[1], x, y) then Some(Lepton)
      else if RefHits(jars[0], x, y) then Some(Quark)
      else None
  {
    assert jars[2].jar == Boson && jars[1].jar == Lepton && jars[0].jar == Quark;
    var two := jars[..2];
    var one := jars[..2][..1];
    assert LastHit(jars, x, y) == if RefHits(jars[2], x, y) then Some(Boson) else LastHit(two, x, y);
    assert LastHit(two, x, y) == if RefHits(jars[1], x, y) then Some(Lepton) else LastHit(one, x, y);
    assert LastHit(one, x, y) == if RefHits(jars[0], x, y) then Some(Quark) else LastHit(one[..0], x, y);
  }

  /** ... and no jar is hit exactly when no mounted jar's padded rectangle holds the point. */
  lemma {:induction false} LastHitNone(jars: seq<JarRef>, x: real, y: real)
    ensures LastHit(jars, x, y).None? <==> forall k :: 0 <= k < |jars| ==> !RefHits(jars[k], x, y)
    decreases |jars|
  {
    if jars != [] {
      var init := jars[..|jars| - 1];
      LastHitNone(init, x, y);
      assert forall k :: 0 <= k < |init| ==> init[k] == jars[k];
    }
  }

  /** The padding counts: a point 20 to the left of the jar still hits it, 21 does not. */
  lemma PaddingExample()
    ensures Hits(Rect(0.0, 0.0, 100.0, 50.0), -20.0, 0.0) && Hits(Rect(0.0, 0.0, 100.0, 50.0), 120.0, 70.0)
    ensures !Hits(Rect(0.0, 0.0, 100.0, 50.0), -21.0, 0.0) && !Hits(Rect(0.0, 0.0, 100.0, 50.0), 50.0, 70.5)
  {
  }

  // ---------------------------------------------------------------------
  // the puzzle's state

  /** `id` is the id of one of the six particles, and `t` that particle's type. */
  predicate IsParticleOf(id: string, t: ParticleType)
  {
    exists k :: 0 <= k < |Particles| && Particles[k].id == id && Particles[k].ptype == t
  }

  /** One of the six particles, possibly recoloured. */
  predicate IsParticle(p: Particle)
  {
    IsParticleOf(p.id, p.ptype)
  }

  predicate AllParticles(ps: seq<Particle>)
  {
    forall k :: 0 <= k < |ps| ==> IsParticle(ps[k])
  }

  /** The six particles themselves satisfy it, so mounting on them is allowed. */
  lemma ParticlesAreParticles()
    ensures AllParticles(Particles)
  {
    forall k | 0 <= k < |Particles| ensures IsParticle(Particles[k]) {
      assert Particles[k].id == Particles[k].id && Particles[k].ptype == Particles[k].ptype;
    }
  }

  /** Every entry of the sorted map sends a particle's id to that particle's own jar. */
  predicate SortedValid(sorted: map<string, ParticleType>)
  {
    forall id :: id in sorted ==> IsParticleOf(id, sorted[id])
  }

  /** `Object.values(sorted).filter(id => id === jar).length`. */
  function SortedCount(sorted: map<string, ParticleType>, jar: ParticleType): nat
  {
    |SortedIds(sorted, jar)|
  }

  /** The ids the map sends to `jar`. */
  function SortedIds(sorted: map<string, ParticleType>, jar: ParticleType): set<string>
  {
    set id | id in sorted && sorted[id] == jar
  }

  /** `PARTICLES.filter(p => p.type === jar).length`. */
  function Required(ps: seq<Particle>, jar: ParticleType): (n: nat)
    ensures n <= |ps|
  {
    if ps == [] then 0 else (if ps[0].ptype == jar then 1 else 0) + Required(ps[1..], jar)
  }

  predicate IsFull(sorted: map<string, ParticleType>, jar: ParticleType)
  {
    SortedCount(sorted, jar) == Required(Particles, jar)
  }

  /** `Math.max(0, required - sortedCount)` empty slots drawn in a jar. */
  function Ghosts(sorted: map<string, ParticleType>, jar: ParticleType): (n: nat)
    ensures n + SortedCount(sorted, jar) >= Required(Particles, jar)
    ensures n <= Required(Particles, jar)
  {
    if Required(Particles, jar) > SortedCount(sorted, jar) then Required(Particles, jar) - SortedCount(sorted, jar) else 0
  }

  /** `Object.keys(sorted).length === PARTICLES.length`. */
  predicate IsComplete(sorted: map<string, ParticleType>)
  {
    |sorted.Keys| == |Particles|
  }

  /** Each jar takes two of the six particles. */
  lemma RequiredIsTwo(jar: ParticleType)
    ensures Required(Particles, jar) == 2
  {
    var ps := Particles;
    assert ps[1..][1..][1..][1..][1..][1..] == [];
  }

  /** The ids of the particles of one type. */
  function IdsOf(jar: ParticleType): set<string>
  {
    match jar
    case Quark => {"up", "down"}
    case Lepton => {"electron", "muon"}
    case Boson => {"photon", "gluon"}
  }

  lemma IdsOfParticles(id: string, t: ParticleType)
    requires IsParticleOf(id, t)
    ensures id in IdsOf(t)
  {
    var k :| 0 <= k < |Particles| && Particles[k].id == id && Particles[k].ptype == t;
    assert k == 0 || k == 1 || k == 2 || k == 3 || k == 4 || k == 5;
  }

  /** Under the invariant, the ids sorted into a jar are ids of that jar's particles. */
  lemma SortedInJar(sorted: map<string, ParticleType>, jar: ParticleType)
    requires SortedValid(sorted)
    ensures SortedIds(sorted, jar) <= IdsOf(jar)
  {
    forall id | id in sorted && sorted[id] == jar ensures id in IdsOf(jar) {
      IdsOfParticles(id, jar);
    }
  }

  lemma {:induction false} SubsetCard<T>(a: set<T>, b: set<T>)
    requires a <= b
    ensures |a| <= |b|
    decreases |b|
  {
    if b != {} {
      var x :| x in b;
      SubsetCard(a - {x}, b - {x});
    }
  }

  /** No jar ever shows more particles than it has slots. */
  lemma SortedCountBounded(sorted: map<string, ParticleType>, jar: ParticleType)
    requires SortedValid(sorted)
    ensures SortedCount(sorted, jar) <= Required(Particles, jar)
  {
    SortedInJar(sorted, jar);
    SubsetCard(SortedIds(sorted, jar), IdsOf(jar));
    IdsOfHasTwo(jar);
    RequiredIsTwo(jar);
  }

  lemma IdsOfHasTwo(jar: ParticleType)
    ensures |IdsOf(jar)| == 2
  {
    match jar
    case Quark => assert "up" != "down";
    case Lepton => assert "electron" != "muon";
    case Boson => assert "photon" != "gluon";
  }

  /** A full jar draws no empty slots, a jar with room draws exactly the missing ones. */
  lemma GhostsFillTheJar(sorted: map<string, ParticleType>, jar: ParticleType)
    requires SortedValid(sorted)
    ensures Ghosts(sorted, jar) + SortedCount(sorted, jar) == Required(Particles, jar)
    ensures Ghosts(sorted, jar) == 0 <==> IsFull(sorted, jar)
  {
    SortedCountBounded(sorted, jar);
  }

  /** The puzzle is solved exactly when all three jars are full. */
  lemma CompleteIffAllFull(sorted: map<string, ParticleType>)
    requires SortedValid(sorted)
    ensures IsComplete(sorted) <==> IsFull(sorted, Quark) && IsFull(sorted, Lepton) && IsFull(sorted, Boson)
  {
    KeysByJar(sorted);
    SortedCountBounded(sorted, Quark);
    SortedCountBounded(sorted, Lepton);
    SortedCountBounded(sorted, Boson);
    RequiredIsTwo(Quark);
    RequiredIsTwo(Lepton);
    RequiredIsTwo(Boson);
  }

  /** Every key is sorted into exactly one jar. */
  lemma KeysByJar(sorted: map<string, ParticleType>)
    ensures |sorted.Keys| == SortedCount(sorted, Quark) + SortedCount(sorted, Lepton) + SortedCount(sorted, Boson)
  {
    var q := SortedIds(sorted, Quark);
    var l := SortedIds(sorted, Lepton);
    var b := SortedIds(sorted, Boson);
    assert sorted.Keys == q + l + b;
    assert q * l == {};
    assert (q + l) * b == {};
  }

  /** The drop rule on the map: recorded only on the particle's own jar, nothing else changes. */
  function Dropped(sorted: map<string, ParticleType>, p: Particle, finalJar: Option<ParticleType>): (r: map<string, ParticleType>)
    ensures finalJar == Some(p.ptype) ==> r == sorted[p.id := p.ptype]
    ensures finalJar != Some(p.ptype) ==> r == sorted
  {
    if finalJar == Some(p.ptype) then sorted[p.id := p.ptype] else sorted
  }

  /** Dropping one of the six particles keeps the invariant, whatever jar it lands on. */
  lemma DroppedKeepsValid(sorted: map<string, ParticleType>, p: Particle, finalJar: Option<ParticleType>)
    requires SortedValid(sorted) && IsParticle(p)
    ensures SortedValid(Dropped(sorted, p, finalJar))
    ensures forall id :: id != p.id ==> (id in Dropped(sorted, p, finalJar) <==> id in sorted)
  {
  }

  class Sorter {
    var sorted: map<string, ParticleType>
    var activeJar: Option<ParticleType>
    var inspected: Option<Particle>
    var scrambled: seq<Particle>

    ghost predicate Valid()
      reads this
    {
      SortedValid(sorted) && AllParticles(scrambled)
    }

    constructor ()
      ensures Valid()
      ensures sorted == map[] && activeJar == None && inspected == None && scrambled == []
    {
      sorted := map[];
      activeJar := None;
      inspected := None;
      scrambled := [];
    }

    /**
     * The mount effect: the palette and the particle list are each shuffled, then
     * particle `k` takes shuffled colour `k % |palette|`. `particles` is `PARTICLES`
     * or any other list of the six particles.
     */
    method Mount(particles: seq<Particle>, palette: seq<string>, colourRolls: seq<real>, particleRolls: seq<real>)
      requires Valid()
      requires AllParticles(particles) && |palette| > 0
      requires |colourRolls| == |palette| && ValidRolls(colourRolls)
      requires |particleRolls| == |particles| && ValidRolls(particleRolls)
      modifies this`scrambled
      ensures Valid()
      ensures scrambled == AssignColours(Shuffled(particles, particleRolls), Shuffled(palette, colourRolls))
    {
      var shuffledColours := ShuffleArray(palette, colourRolls);
      var shuffledParticles := ShuffleArray(particles, particleRolls);
      scrambled := AssignColours(shuffledParticles, shuffledColours);
      ScrambledAreParticles(particles, shuffledParticles, shuffledColours);
    }

    /** `onDragStart`: the glow is cleared and the particle's clue shown. */
    method DragStart(p: Particle)
      requires Valid()
      modifies this`activeJar, this`inspected
      ensures Valid()
      ensures activeJar == None && inspected == Some(p)
    {
      activeJar := None;
      inspected := Some(p);
    }

    /** `onPointerDown`: the particle's clue is shown. */
    method PointerDown(p: Particle)
      requires Valid()
      modifies this`inspected
      ensures Valid()
      ensures inspected == Some(p)
    {
      inspected := Some(p);
    }

    /** `handleDrag`: the glow follows the last jar under the pointer; without a pointer position nothing changes. */
    method Drag(jars: seq<JarRef>, point: Option<(real, real)>)
      requires Valid()
      modifies this`activeJar
      ensures Valid()
      ensures point.None? ==> activeJar == old(activeJar)
      ensures point.Some? ==> activeJar == LastHit(jars, point.value.0, point.value.1)
    {
      if point.None? {
        return;
      }
      var hovering := HitJar(jars, point.value.0, point.value.1);
      if hovering != activeJar {
        activeJar := hovering;
      }
    }

    /**
     * `handleDragEnd`: `recorded` says whether the drop counted (and so whether progress
     * is reported). The glow is cleared in every case.
     */
    method DragEnd(jars: seq<JarRef>, point: Option<(real, real)>, p: Particle) returns (recorded: bool)
      requires Valid() && IsParticle(p)
      modifies this`sorted, this`activeJar, this`inspected
      ensures Valid()
      ensures var finalJar := if point.Some? then LastHit(jars, point.value.0, point.value.1) else None;
        recorded == (finalJar == Some(p.ptype)) && sorted == Dropped(old(sorted), p, finalJar)
      ensures activeJar == None
      ensures inspected == if recorded && old(inspected).Some? && old(inspected).value.id == p.id then None else old(inspected)
    {
      var finalJar: Option<ParticleType> := None;
      if point.Some? {
        finalJar := HitJar(jars, point.value.0, point.value.1);
      }
      recorded := finalJar == Some(p.ptype);
      DroppedKeepsValid(sorted, p, finalJar);
      if recorded {
        sorted := sorted[p.id := p.ptype];
        if inspected.Some? && inspected.value.id == p.id {
          inspected := None;
        }
      }
      activeJar := None;
    }
  }

  /** Shuffling and recolouring keep every entry one of the six particles. */
  lemma ScrambledAreParticles(ps: seq<Particle>, shuffled: seq<Particle>, colours: seq<string>)
    requires AllParticles(ps) && multiset(shuffled) == multiset(ps) && |colours| > 0
    ensures AllParticles(AssignColours(shuffled, colours))
  {
    var r := AssignColours(shuffled, colours);
    forall k | 0 <= k < |r| ensures IsParticle(r[k]) {
      assert shuffled[k] in multiset(ps);
      var m :| 0 <= m < |ps| && ps[m] == shuffled[k];
      assert IsParticle(ps[m]);
    }
  }
}
