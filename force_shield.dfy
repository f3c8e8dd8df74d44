/**
 * The hit pool of the force-shield controller: at most ten hits, each kept
 * in the same slot of parallel arrays (object-space position, duration,
 * elapsed timer, radius, intensity) with the first `hitsCount` slots live.
 * A new hit takes the next free slot, or, when the pool is full, the slot
 * whose hit has the smallest duration. Every frame the timers advance and
 * expired hits are removed by moving the last live hit into their slot;
 * then the intensity of each live hit is computed and the arrays are handed
 * to the renderer, which is modelled by the property block it receives.
 */
module ForceShield {

  const MaxHitsCount: nat := 10

  /** The largest finite single-precision value, the start of the min-scan. */
  const FloatMaxValue: real := 340282346638528859811704183484516925440.0

  /** The shortest duration a hit is given. */
  const MinDuration: real := 0.001

  datatype Vec3 = Vec3(x: real, y: real, z: real)
  datatype Vec4 = Vec4(x: real, y: real, z: real, w: real)

  /** A Vector3 widened to a Vector4 (w = 0). */
  function ToVec4(v: Vec3): Vec4 {
    Vec4(v.x, v.y, v.z, 0.0)
  }

  /** One live hit: the contents of one slot. */
  datatype Hit = Hit(position: Vec4, duration: real, timer: real, radius: real)

  /** The values handed to the renderer. */
  datatype PropertyBlock = PropertyBlock(radius: seq<real>, positions: seq<Vec4>, count: int, intensity: seq<real>)

  function Max(a: real, b: real): (m: real)
    ensures m >= a && m >= b && (m == a || m == b)
  {
    if a > b then a else b
  }

  function Clamp01(v: real): (r: real)
    ensures 0.0 <= r <= 1.0
    ensures 0.0 <= v <= 1.0 ==> r == v
  {
    if v < 0.0 then 0.0 else if v > 1.0 then 1.0 else v
  }

  /** The intensity of a hit that has run for `timer` of its `duration`. */
  function Intensity(timer: real, duration: real): (r: real)
    requires duration > 0.0
    ensures 0.0 <= r <= 1.0
  {
    1.0 - Clamp01(timer / duration)
  }

  /** A fresh hit shines fully, and one at or past its duration not at all. */
  lemma IntensityEnds(timer: real, duration: real)
    requires duration > 0.0
    ensures timer <= 0.0 ==> Intensity(timer, duration) == 1.0
    ensures timer >= duration ==> Intensity(timer, duration) == 0.0
  {
    if timer >= duration {
      assert timer / duration >= 1.0;
    }
    if timer <= 0.0 {
      assert timer / duration <= 0.0;
    }
  }

  /** A hit fades as its timer runs. */
  lemma IntensityFades(t1: real, t2: real, duration: real)
    requires duration > 0.0 && t1 <= t2
    ensures Intensity(t2, duration) <= Intensity(t1, duration)
  {
    assert t1 / duration <= t2 / duration;
  }

  // ---------------------------------------------------------------------
  // The slot scan of GetFreeHitId

  /** The running (index, duration) of the min-scan over `s`: it starts at
      (0, FloatMaxValue) and moves on a strictly smaller duration only. */
  function MinScan(s: seq<real>): (r: (nat, real))
    ensures |s| > 0 ==> r.0 < |s|
    ensures r.1 <= FloatMaxValue
  {
    if s == [] then (0, FloatMaxValue)
    else
      var prev := MinScan(s[..|s| - 1]);
      if s[|s| - 1] < prev.1 then (|s| - 1, s[|s| - 1]) else prev
  }

  /** Over finite single-precision durations the scan finds the first slot
      holding the smallest duration. */
  lemma {:induction false} MinScanFindsFirstMinimum(s: seq<real>)
    requires |s| > 0
    requires forall j :: 0 <= j < |s| ==> s[j] <= FloatMaxValue
    ensures MinScan(s).1 == s[MinScan(s).0]
    ensures forall j :: 0 <= j < |s| ==> s[MinScan(s).0] <= s[j]
    ensures forall j :: 0 <= j < MinScan(s).0 ==> s[MinScan(s).0] < s[j]
  {
    var init := s[..|s| - 1];
    if |init| == 0 {
      assert MinScan(init) == (0, FloatMaxValue);
    } else {
      MinScanFindsFirstMinimum(init);
      assert forall j :: 0 <= j < |init| ==> init[j] == s[j];
    }
  }

  /** The slot a new hit takes. */
  function FreeSlot(count: int, durations: seq<real>): (id: nat)
    ensures 0 <= count < MaxHitsCount ==> id == count
    ensures count >= MaxHitsCount ==> id == MinScan(durations).0
    ensures |durations| == MaxHitsCount ==> id < MaxHitsCount
  {
    if count < MaxHitsCount then (if count < 0 then 0 else count) else MinScan(durations).0
  }

  // ---------------------------------------------------------------------
  // The live hits as a value

  /** The first n slots of the parallel arrays as hits. */
  function HitsOf(p: seq<Vec4>, d: seq<real>, t: seq<real>, r: seq<real>, n: nat): (hs: seq<Hit>)
    requires n <= |p| && n <= |d| && n <= |t| && n <= |r|
    ensures |hs| == n
  {
    seq(n, j requires 0 <= j < n => Hit(p[j], d[j], t[j], r[j]))
  }

  /** Writing a hit into a live slot replaces that hit. */
  lemma HitsOfUpdate(p: seq<Vec4>, d: seq<real>, t: seq<real>, r: seq<real>, n: nat, id: nat, h: Hit)
    requires n <= |p| && n <= |d| && n <= |t| && n <= |r| && id < n
    ensures HitsOf(p[id := h.position], d[id := h.duration], t[id := h.timer], r[id := h.radius], n)
         == HitsOf(p, d, t, r, n)[id := h]
  {
  }

  /** Writing a hit into the first free slot and counting it appends it. */
  lemma HitsOfAppend(p: seq<Vec4>, d: seq<real>, t: seq<real>, r: seq<real>, n: nat, h: Hit)
    requires n < |p| && n < |d| && n < |t| && n < |r|
    ensures HitsOf(p[n := h.position], d[n := h.duration], t[n := h.timer], r[n := h.radius], n + 1)
         == HitsOf(p, d, t, r, n) + [h]
  {
  }

  /** A timer advanced in a live slot advances that hit only. */
  lemma HitsOfTimer(p: seq<Vec4>, d: seq<real>, t: seq<real>, r: seq<real>, n: nat, id: nat, v: real)
    requires n <= |p| && n <= |d| && n <= |t| && n <= |r| && id < n
    ensures HitsOf(p, d, t[id := v], r, n) == HitsOf(p, d, t, r, n)[id := HitsOf(p, d, t, r, n)[id].(timer := v)]
  {
  }

  /** Dropping the last slot drops the last hit. */
  lemma HitsOfShrink(p: seq<Vec4>, d: seq<real>, t: seq<real>, r: seq<real>, n: nat)
    requires 0 < n <= |p| && n <= |d| && n <= |t| && n <= |r|
    ensures HitsOf(p, d, t, r, n - 1) == HitsOf(p, d, t, r, n)[..n - 1]
  {
  }

  /** The live hits after slot `id` has taken the last hit and the count has
      dropped by one. */
  function Removed(s: seq<Hit>, id: nat): (s': seq<Hit>)
    requires id < |s|
    ensures |s'| == |s| - 1
  {
    if id == |s| - 1 then s[..id] else s[..|s| - 1][id := s[|s| - 1]]
  }

  /** Removal takes out exactly the hit in slot `id`. */
  lemma RemovedTakesOut(s: seq<Hit>, id: nat)
    requires id < |s|
    ensures multiset(Removed(s, id)) == multiset(s) - multiset{s[id]}
  {
    var last := |s| - 1;
    assert s == s[..last] + [s[last]];
    if id != last {
      assert s[..last] == s[..id] + [s[id]] + s[id + 1..last];
      assert Removed(s, id) == s[..id] + [s[last]] + s[id + 1..last];
    }
  }

  /** Slots before `id` keep their hits, and the hits from `id` on are the
      old ones after it. */
  lemma RemovedSplit(s: seq<Hit>, id: nat)
    requires id < |s|
    ensures Removed(s, id)[..id] == s[..id]
    ensures multiset(Removed(s, id)[id..]) == multiset(s[id + 1..])
  {
    var last := |s| - 1;
    if id != last {
      var tail := s[id + 1..last];
      var t := s[..last][id := s[last]];
      assert t[id..] == [s[last]] + tail by {
        forall k | 0 <= k < |t| - id ensures t[id..][k] == ([s[last]] + tail)[k] {
          if k > 0 {
            assert t[id + k] == s[id + k];
          }
        }
      }
      assert s[id + 1..] == tail + [s[last]];
      assert Removed(s, id)[id..] == [s[last]] + tail;
      calc {
        multiset(Removed(s, id)[id..]);
        multiset([s[last]]) + multiset(tail);
        multiset(s[id + 1..]);
      }
    } else {
      assert Removed(s, id)[id..] == [] == s[id + 1..];
    }
  }

  // ---------------------------------------------------------------------
  // Expiry as a value

  function Advance(h: Hit, dt: real): Hit {
    h.(timer := h.timer + dt)
  }

  predicate Expired(h: Hit) {
    h.timer > h.duration
  }

  /** The hits that outlive a frame of length dt, each advanced by dt. */
  function Survivors(hs: seq<Hit>, dt: real): (r: seq<Hit>)
    ensures |r| <= |hs|
  {
    if hs == [] then []
    else
      var rest := Survivors(hs[..|hs| - 1], dt);
      var h := Advance(hs[|hs| - 1], dt);
      if Expired(h) then rest else rest + [h]
  }

  /** Every survivor is within its duration. */
  lemma {:induction false} SurvivorsInTime(hs: seq<Hit>, dt: real)
    ensures forall k :: 0 <= k < |Survivors(hs, dt)| ==> !Expired(Survivors(hs, dt)[k])
  {
    if hs != [] {
      var init := hs[..|hs| - 1];
      SurvivorsInTime(init, dt);
    }
  }

  /** A frame in which no hit runs past its duration keeps every hit, in
      order, advanced by dt. */
  lemma {:induction false} SurvivorsKeepLive(hs: seq<Hit>, dt: real)
    requires forall k :: 0 <= k < |hs| ==> !Expired(Advance(hs[k], dt))
    ensures Survivors(hs, dt) == seq(|hs|, k requires 0 <= k < |hs| => Advance(hs[k], dt))
  {
    if hs != [] {
      SurvivorsKeepLive(hs[..|hs| - 1], dt);
    }
  }

  /** Survivors of a concatenation are the survivors of each part. */
  lemma {:induction false} SurvivorsAppend(a: seq<Hit>, b: seq<Hit>, dt: real)
    ensures Survivors(a + b, dt) == Survivors(a, dt) + Survivors(b, dt)
    decreases |b|
  {
    if b == [] {
      assert a + b == a;
    } else {
      var bi := b[..|b| - 1];
      assert (a + b)[..|a + b| - 1] == a + bi;
      SurvivorsAppend(a, bi, dt);
    }
  }

  /** The survivors of b are, up to order, those of b without slot k plus
      those of the hit in slot k. */
  lemma SurvivorsExtract(b: seq<Hit>, k: nat, dt: real)
    requires k < |b|
    ensures multiset(Survivors(b, dt))
      == multiset(Survivors(b[..k] + b[k + 1..], dt)) + multiset(Survivors([b[k]], dt))
  {
    var b1, b2, x := b[..k], b[k + 1..], b[k];
    assert b == b1 + [x] + b2;
    SurvivorsAppend(b1 + [x], b2, dt);
    SurvivorsAppend(b1, [x], dt);
    SurvivorsAppend(b1, b2, dt);
  }

  /** Survival depends on each hit alone, not on the slot order. */
  lemma {:induction false} SurvivorsPermutation(a: seq<Hit>, b: seq<Hit>, dt: real)
    requires multiset(a) == multiset(b)
    ensures multiset(Survivors(a, dt)) == multiset(Survivors(b, dt))
    decreases |a|
  {
    if a != [] {
      var x := a[|a| - 1];
      var ai := a[..|a| - 1];
      assert a == ai + [x];
      assert x in multiset(b);
      var k :| 0 <= k < |b| && b[k] == x;
      var rest := b[..k] + b[k + 1..];
      assert multiset(rest) == multiset(ai) by {
        var b1, b2 := b[..k], b[k + 1..];
        assert b == b1 + [x] + b2;
        assert multiset(b) == multiset(b1) + multiset{x} + multiset(b2);
        assert multiset(rest) == multiset(b1) + multiset(b2);
        assert multiset(a) == multiset(ai) + multiset{x};
        assert multiset(ai) == multiset(a) - multiset{x};
        assert multiset(rest) == multiset(b) - multiset{x};
      }
      SurvivorsPermutation(ai, rest, dt);
      SurvivorsAppend(ai, [x], dt);
      assert Survivors(a, dt) == Survivors(ai, dt) + Survivors([x], dt);
      assert multiset(Survivors(a, dt)) == multiset(Survivors(ai, dt)) + multiset(Survivors([x], dt));
      SurvivorsExtract(b, k, dt);
    } else {
      assert b == [];
    }
  }

  /** One iteration of the expiry loop, on the live hits L with slot i next:
      the hits before i are the survivors of the hits `seen` so far, and the
      hits from i on are the rest of the original ones. Advancing slot i and
      then either dropping it by removal or moving past it keeps this so. */
  lemma ExpireStep(L: seq<Hit>, i: nat, seen: seq<Hit>, orig: seq<Hit>, dt: real)
    requires i < |L|
    requires L[..i] == Survivors(seen, dt)
    requires multiset(seen) + multiset(L[i..]) == multiset(orig)
    ensures var h := L[i]; var Lt := L[i := Advance(h, dt)];
      if Expired(Advance(h, dt)) then
        && Removed(Lt, i)[..i] == Survivors(seen + [h], dt)
        && multiset(seen + [h]) + multiset(Removed(Lt, i)[i..]) == multiset(orig)
      else
        && Lt[..i + 1] == Survivors(seen + [h], dt)
        && multiset(seen + [h]) + multiset(Lt[i + 1..]) == multiset(orig)
  {
    var h := L[i];
    var Lt := L[i := Advance(h, dt)];
    assert L[i..] == [h] + L[i + 1..];
    assert (seen + [h])[..|seen|] == seen;
    assert Lt[..i] == L[..i] && Lt[i + 1..] == L[i + 1..];
    if Expired(Advance(h, dt)) {
      RemovedSplit(Lt, i);
    } else {
      assert Lt[..i + 1] == L[..i] + [Advance(h, dt)];
    }
  }

  /** When the expiry loop ends, the live hits are the survivors of a
      reordering of the original ones. */
  lemma ExpiryDone(live: seq<Hit>, seen: seq<Hit>, orig: seq<Hit>, dt: real)
    requires live == Survivors(seen, dt)
    requires multiset(seen) + multiset(live[|live|..]) == multiset(orig)
    ensures multiset(live) == multiset(Survivors(orig, dt))
    ensures |live| == |Survivors(orig, dt)|
    ensures forall j :: 0 <= j < |live| ==> !Expired(live[j])
  {
    assert live[|live|..] == [];
    SurvivorsPermutation(seen, orig, dt);
    assert |multiset(live)| == |multiset(Survivors(orig, dt))|;
    SurvivorsInTime(seen, dt);
  }

  // ---------------------------------------------------------------------
  // The controller

  class ForceShieldController {
    const hitsObjectPosition: array<Vec4>
    const hitsDuration: array<real>
    const hitRadius: array<real>
    const hitsTimer: array<real>
    const hitsIntensity: array<real>
    var hitsCount: int
    /** What the renderer last received. */
    var block: PropertyBlock

    ghost predicate Valid()
      reads this, hitsDuration
    {
      && hitsObjectPosition.Length == MaxHitsCount && hitsDuration.Length == MaxHitsCount
      && hitRadius.Length == MaxHitsCount && hitsTimer.Length == MaxHitsCount
      && hitsIntensity.Length == MaxHitsCount
      && hitsDuration != hitRadius && hitsDuration != hitsTimer && hitsDuration != hitsIntensity
      && hitRadius != hitsTimer && hitRadius != hitsIntensity && hitsTimer != hitsIntensity
      && 0 <= hitsCount <= MaxHitsCount
      && forall j :: 0 <= j < MaxHitsCount ==> hitsDuration[j] <= FloatMaxValue
    }

    /** The live hits. */
    ghost function Live(): seq<Hit>
      reads this, hitsObjectPosition, hitsDuration, hitsTimer, hitRadius
      requires Valid()
    {
      HitsOf(hitsObjectPosition[..], hitsDuration[..], hitsTimer[..], hitRadius[..], hitsCount)
    }

    /** An empty pool with zeroed arrays. */
    constructor ()
      ensures Valid() && fresh(hitsObjectPosition) && fresh(hitsDuration) && fresh(hitRadius)
      ensures fresh(hitsTimer) && fresh(hitsIntensity)
      ensures hitsCount == 0 && Live() == []
    {
      hitsObjectPosition := new Vec4[MaxHitsCount](_ => Vec4(0.0, 0.0, 0.0, 0.0));
      hitsDuration := new real[MaxHitsCount](_ => 0.0);
      hitRadius := new real[MaxHitsCount](_ => 0.0);
      hitsTimer := new real[MaxHitsCount](_ => 0.0);
      hitsIntensity := new real[MaxHitsCount](_ => 0.0);
      hitsCount := 0;
      block := PropertyBlock([], [], 0, []);
    }

    /** The slot for a new hit: the next free one, counted as live, or, when
        the pool is full, the first slot with the smallest duration. */
    method GetFreeHitId() returns (id: nat)
      requires Valid()
      modifies this
      ensures Valid() && id < MaxHitsCount && block == old(block)
      ensures id == FreeSlot(old(hitsCount), hitsDuration[..])
      ensures old(hitsCount) < MaxHitsCount ==> hitsCount == old(hitsCount) + 1 && id == old(hitsCount)
      ensures old(hitsCount) >= MaxHitsCount ==>
        && hitsCount == old(hitsCount)
        && (forall j :: 0 <= j < MaxHitsCount ==> hitsDuration[id] <= hitsDuration[j])
        && (forall j :: 0 <= j < id ==> hitsDuration[id] < hitsDuration[j])
    {
      if hitsCount < MaxHitsCount {
        hitsCount := hitsCount + 1;
        return hitsCount - 1;
      }
      var minDuration := FloatMaxValue;
      var minId: nat := 0;
      for i := 0 to MaxHitsCount
        invariant (minId, minDuration) == MinScan(hitsDuration[..i])
      {
        assert hitsDuration[..i + 1][..i] == hitsDuration[..i];
        if hitsDuration[i] < minDuration {
          minDuration := hitsDuration[i];
          minId := i;
        }
      }
      assert hitsDuration[..MaxHitsCount] == hitsDuration[..];
      MinScanFindsFirstMinimum(hitsDuration[..]);
      id := minId;
    }

    /** AddHit: the chosen slot, and only it, gets the position, the duration
        raised to at least 0.001, the radius raised to at least 0, and a zero
        timer. */
    method AddHit(localPosition: Vec3, duration: real, radius: real)
      requires Valid() && duration <= FloatMaxValue
      modifies this, hitsObjectPosition, hitsDuration, hitRadius, hitsTimer
      ensures Valid() && block == old(block)
      ensures hitsCount == if old(hitsCount) < MaxHitsCount then old(hitsCount) + 1 else old(hitsCount)
      ensures
        var id := FreeSlot(old(hitsCount), old(hitsDuration[..]));
        && hitsObjectPosition[..] == old(hitsObjectPosition[..])[id := ToVec4(localPosition)]
        && hitsDuration[..] == old(hitsDuration[..])[id := Max(MinDuration, duration)]
        && hitRadius[..] == old(hitRadius[..])[id := Max(0.0, radius)]
        && hitsTimer[..] == old(hitsTimer[..])[id := 0.0]
      ensures
        var h := Hit(ToVec4(localPosition), Max(MinDuration, duration), 0.0, Max(0.0, radius));
        if old(hitsCount) < MaxHitsCount then Live() == old(Live()) + [h]
        else Live() == old(Live())[FreeSlot(old(hitsCount), old(hitsDuration[..])) := h]
    {
      ghost var p, d, t, r, n := hitsObjectPosition[..], hitsDuration[..], hitsTimer[..], hitRadius[..], hitsCount;
      var id := GetFreeHitId();
      hitsObjectPosition[id] := ToVec4(localPosition);
      hitsDuration[id] := Max(MinDuration, duration);
      hitRadius[id] := Max(0.0, radius);
      hitsTimer[id] := 0.0;
      ghost var h := Hit(ToVec4(localPosition), Max(MinDuration, duration), 0.0, Max(0.0, radius));
      if n < MaxHitsCount {
        HitsOfAppend(p, d, t, r, n, h);
      } else {
        HitsOfUpdate(p, d, t, r, n, id, h);
      }
    }

    /** ClearAllHits: no hit is live any more, and the renderer is told so. */
    method ClearAllHits()
      requires Valid()
      modifies this, hitsIntensity
      ensures Valid() && hitsCount == 0 && Live() == []
      ensures hitsIntensity[..] == old(hitsIntensity[..])
      ensures block == PropertyBlock(hitRadius[..], hitsObjectPosition[..], 0, hitsIntensity[..])
    {
      hitsCount := 0;
      SendHitsToRenderer();
    }

    /** SwapWithLast: slot id takes the last live hit's position, duration,
        timer and radius (its intensity stays), and the count drops by one. */
    method SwapWithLast(id: nat)
      requires Valid() && id < hitsCount
      modifies this, hitsObjectPosition, hitsDuration, hitsTimer, hitRadius
      ensures Valid() && hitsCount == old(hitsCount) - 1 && block == old(block)
      ensures
        var last := old(hitsCount) - 1;
        && hitsObjectPosition[..] == old(hitsObjectPosition[..])[id := old(hitsObjectPosition[last])]
        && hitsDuration[..] == old(hitsDuration[..])[id := old(hitsDuration[last])]
        && hitsTimer[..] == old(hitsTimer[..])[id := old(hitsTimer[last])]
        && hitRadius[..] == old(hitRadius[..])[id := old(hitRadius[last])]
      ensures Live() == Removed(old(Live()), id)
    {
      ghost var p, d, t, r, n := hitsObjectPosition[..], hitsDuration[..], hitsTimer[..], hitRadius[..], hitsCount;
      var idLast := hitsCount - 1;
      if id != idLast {
        hitsObjectPosition[id] := hitsObjectPosition[idLast];
        hitsDuration[id] := hitsDuration[idLast];
        hitsTimer[id] := hitsTimer[idLast];
        hitRadius[id] := hitRadius[idLast];
        ghost var L := HitsOf(p, d, t, r, n);
        HitsOfUpdate(p, d, t, r, n, id, L[idLast]);
        HitsOfShrink(hitsObjectPosition[..], hitsDuration[..], hitsTimer[..], hitRadius[..], n);
      } else {
        HitsOfShrink(p, d, t, r, n);
      }
      hitsCount := hitsCount - 1;
    }

    /** The timer step of UpdateHitsLifeTime on live slot i. */
    method AdvanceTimer(i: nat, dt: real)
      requires Valid() && i < hitsCount
      modifies hitsTimer
      ensures Valid()
      ensures hitsTimer[..] == old(hitsTimer[..])[i := old(hitsTimer[i]) + dt]
      ensures Live() == old(Live())[i := Advance(old(Live())[i], dt)]
    {
      ghost var p, d, t, r := hitsObjectPosition[..], hitsDuration[..], hitsTimer[..], hitRadius[..];
      hitsTimer[i] := hitsTimer[i] + dt;
      assert hitsTimer[..] == t[i := t[i] + dt];
      HitsOfTimer(p, d, t, r, hitsCount, i, t[i] + dt);
    }

    /** One iteration of the loop of UpdateHitsLifeTime: slot i's timer
        advances; an expired hit is swapped out and the slot stays under
        examination, otherwise the scan moves on. */
    method ExpireSlot(i: nat, dt: real, ghost seen: seq<Hit>, ghost orig: seq<Hit>)
      returns (i': nat, ghost seen': seq<Hit>)
      requires Valid() && i < hitsCount
      requires Live()[..i] == Survivors(seen, dt)
      requires multiset(seen) + multiset(Live()[i..]) == multiset(orig)
      modifies this, hitsObjectPosition, hitsDuration, hitsTimer, hitRadius
      ensures Valid() && i' <= hitsCount && block == old(block)
      ensures Live()[..i'] == Survivors(seen', dt)
      ensures multiset(seen') + multiset(Live()[i'..]) == multiset(orig)
      ensures old(hitsCount) - i > hitsCount - i'
    {
      ghost var L := Live();
      ghost var h := L[i];
      ExpireStep(L, i, seen, orig, dt);
      AdvanceTimer(i, dt);
      assert Expired(Advance(h, dt)) <==> hitsTimer[i] > hitsDuration[i] by {
        assert Live()[i] == Advance(h, dt);
        assert Live()[i] == Hit(hitsObjectPosition[i], hitsDuration[i], hitsTimer[i], hitRadius[i]);
      }
      i' := i;
      if hitsTimer[i] > hitsDuration[i] {
        SwapWithLast(i);
      } else {
        i' := i + 1;
      }
      seen' := seen + [h];
    }

    /** UpdateHitsLifeTime: every live timer advances by dt; a hit past its
        duration is dropped by SwapWithLast, and the slot is examined again
        since it now holds the former last hit. */
    method UpdateHitsLifeTime(dt: real)
      requires Valid()
      modifies this, hitsObjectPosition, hitsDuration, hitsTimer, hitRadius
      ensures Valid() && block == old(block)
      ensures multiset(Live()) == multiset(Survivors(old(Live()), dt))
      ensures hitsCount == |Survivors(old(Live()), dt)|
      ensures forall j :: 0 <= j < hitsCount ==> hitsTimer[j] <= hitsDuration[j]
    {
      ghost var orig := Live();
      ghost var seen: seq<Hit> := [];
      var i := 0;
      while i < hitsCount
        invariant Valid() && 0 <= i <= hitsCount && block == old(block)
        invariant Live()[..i] == Survivors(seen, dt)
        invariant multiset(seen) + multiset(Live()[i..]) == multiset(orig)
        decreases hitsCount - i
      {
        i, seen := ExpireSlot(i, dt, seen, orig);
      }
      ghost var live := Live();
      assert live[..i] == live && live[i..] == [];
      ExpiryDone(live, seen, orig, dt);
      forall j | 0 <= j < hitsCount ensures hitsTimer[j] <= hitsDuration[j] {
        assert !Expired(live[j]) && live[j] == Hit(hitsObjectPosition[j], hitsDuration[j], hitsTimer[j], hitRadius[j]);
      }
    }

    /** SendHitsToRenderer: each live hit with a positive duration gets its
        intensity; the renderer receives the radii, positions, count and
        intensities. */
    method SendHitsToRenderer()
      requires Valid()
      modifies this, hitsIntensity
      ensures Valid() && hitsCount == old(hitsCount)
      ensures forall j :: 0 <= j < MaxHitsCount ==>
        hitsIntensity[j] == if j < hitsCount && hitsDuration[j] > 0.0
                            then Intensity(hitsTimer[j], hitsDuration[j]) else old(hitsIntensity[j])
      ensures block == PropertyBlock(hitRadius[..], hitsObjectPosition[..], hitsCount, hitsIntensity[..])
    {
      for i := 0 to hitsCount
        invariant Valid() && hitsCount == old(hitsCount) && block == old(block)
        invariant forall j :: 0 <= j < MaxHitsCount ==>
          hitsIntensity[j] == if j < i && hitsDuration[j] > 0.0
                              then Intensity(hitsTimer[j], hitsDuration[j]) else old(hitsIntensity[j])
      {
        if hitsDuration[i] > 0.0 {
          hitsIntensity[i] := 1.0 - Clamp01(hitsTimer[i] / hitsDuration[i]);
        }
      }
      block := PropertyBlock(hitRadius[..], hitsObjectPosition[..], hitsCount, hitsIntensity[..]);
    }

    /** Update: one frame of length dt, expiry and then rendering. */
    method Update(dt: real)
      requires Valid()
      modifies this, hitsObjectPosition, hitsDuration, hitsTimer, hitRadius, hitsIntensity
      ensures Valid()
      ensures multiset(Live()) == multiset(Survivors(old(Live()), dt))
      ensures hitsCount == |Survivors(old(Live()), dt)|
      ensures forall j :: 0 <= j < hitsCount ==> hitsTimer[j] <= hitsDuration[j]
      ensures forall j :: 0 <= j < MaxHitsCount ==>
        hitsIntensity[j] == if j < hitsCount && hitsDuration[j] > 0.0
                            then Intensity(hitsTimer[j], hitsDuration[j]) else old(hitsIntensity[j])
      ensures block == PropertyBlock(hitRadius[..], hitsObjectPosition[..], hitsCount, hitsIntensity[..])
    {
      UpdateHitsLifeTime(dt);
      SendHitsToRenderer();
    }
  }
}
