/** The tab carousel of src/components/Hero.tsx: seven product tabs that advance on a timer
    until the visitor picks one or animations are turned off. */
module Hero {

  /** The tab ids, in display order. */
  const TabIds: seq<string> := ["word", "excel", "ppt", "teams", "outlook", "chat", "onedrive"]

  /** No two tabs share an id. */
  lemma TabIdsDistinct()
    ensures |TabIds| == 7 && Distinct(TabIds)
  {
  }

  /** `tabs.findIndex(t => t.id === id)`: the first matching position, -1 when none matches. */
  function FindIndex(ids: seq<string>, id: string): (i: int)
    ensures -1 <= i < |ids|
    ensures i >= 0 ==> ids[i] == id && forall k :: 0 <= k < i ==> ids[k] != id
    ensures i == -1 <==> id !in ids
  {
    if |ids| == 0 then -1
    else if ids[0] == id then 0
    else
      var rest := FindIndex(ids[1..], id);
      assert id in ids[1..] ==> id in ids;
      if rest == -1 then -1 else rest + 1
  }

  /** No id occurs twice. */
  predicate Distinct(ids: seq<string>)
  {
    forall i, j :: 0 <= i < j < |ids| ==> ids[i] != ids[j]
  }

  /** The tab the interval moves to: `tabs[(currentIndex + 1) % tabs.length]`. */
  function Advanced(ids: seq<string>, id: string): (next: string)
    requires |ids| > 0
    ensures next in ids
    ensures id in ids ==> next == ids[(FindIndex(ids, id) + 1) % |ids|]
  {
    ids[(FindIndex(ids, id) + 1) % |ids|]
  }

  /** `n` ticks in a row. */
  function AdvancedBy(ids: seq<string>, id: string, n: nat): string
    requires |ids| > 0
  {
    if n == 0 then id else Advanced(ids, AdvancedBy(ids, id, n - 1))
  }

  /** The position a tab has in the list is where it is found. */
  lemma FindsOwnPosition(ids: seq<string>, i: nat)
    requires Distinct(ids) && i < |ids|
    ensures FindIndex(ids, ids[i]) == i
  {
  }

  /** A tick from the tab at position `r` shows the tab after it, wrapping. */
  lemma AdvancedFrom(ids: seq<string>, r: nat)
    requires Distinct(ids) && r < |ids|
    ensures Advanced(ids, ids[r]) == ids[(r + 1) % |ids|]
  {
    FindsOwnPosition(ids, r);
  }

  /** `(i + 1) % m` for a position, or for the -1 of a failed search: one step on, wrapping
      to the start after the last position. */
  lemma NextIndexWraps(i: int, m: nat)
    requires m > 0 && -1 <= i < m
    ensures (i + 1) % m == if i + 1 < m then i + 1 else 0
  {
    if i + 1 == m {
      assert (i + 1) % m == m % m == 0;
    }
  }

  /** The position reached after `n` steps from position `i` of `m`. */
  function Rotated(i: nat, n: nat, m: nat): (r: nat)
    requires m > 0 && i < m
    ensures r < m
  {
    if n == 0 then i else (Rotated(i, n - 1, m) + 1) % m
  }

  /** Within one round, `n` steps from `i` land on `i + n`, less `m` past the end. */
  lemma {:induction false} RotatedWithinRound(i: nat, n: nat, m: nat)
    requires m > 0 && i < m && n <= m
    ensures Rotated(i, n, m) == if i + n < m then i + n else i + n - m
  {
    if n > 0 {
      RotatedWithinRound(i, n - 1, m);
      NextIndexWraps(Rotated(i, n - 1, m), m);
    }
  }

  /** After `n` ticks from a listed tab, the carousel shows the tab `n` positions further on. */
  lemma {:induction false} AdvancedByMoves(ids: seq<string>, id: string, n: nat)
    requires Distinct(ids) && id in ids
    ensures AdvancedBy(ids, id, n) == ids[Rotated(FindIndex(ids, id), n, |ids|)]
  {
    if n > 0 {
      var r := Rotated(FindIndex(ids, id), n - 1, |ids|);
      AdvancedByMoves(ids, id, n - 1);
      AdvancedFrom(ids, r);
      assert Rotated(FindIndex(ids, id), n, |ids|) == (r + 1) % |ids|;
    }
  }

  /** The number of ticks from position `i` to position `j`. */
  function StepsTo(i: nat, j: nat, m: nat): (n: nat)
    requires i < m && j < m
    ensures n < m
  {
    if j >= i then j - i else j - i + m
  }

  /** The tab at position `j` is shown after `StepsTo` ticks. */
  lemma ShownAfterSteps(ids: seq<string>, id: string, j: nat)
    requires Distinct(ids) && id in ids && j < |ids|
    ensures AdvancedBy(ids, id, StepsTo(FindIndex(ids, id), j, |ids|)) == ids[j]
  {
    var i := FindIndex(ids, id);
    var n := StepsTo(i, j, |ids|);
    AdvancedByMoves(ids, id, n);
    RotatedWithinRound(i, n, |ids|);
    assert Rotated(i, n, |ids|) == j;
  }

  /** As many ticks as there are tabs bring the carousel back where it started, and on the
      way every tab is shown, the one at position `j` after `StepsTo` ticks. */
  lemma FullCycle(ids: seq<string>, id: string)
    requires Distinct(ids) && id in ids
    ensures AdvancedBy(ids, id, |ids|) == id
    ensures forall j :: 0 <= j < |ids| ==> AdvancedBy(ids, id, StepsTo(FindIndex(ids, id), j, |ids|)) == ids[j]
  {
    AdvancedByMoves(ids, id, |ids|);
    RotatedWithinRound(FindIndex(ids, id), |ids|, |ids|);
    forall j | 0 <= j < |ids|
      ensures AdvancedBy(ids, id, StepsTo(FindIndex(ids, id), j, |ids|)) == ids[j]
    {
      ShownAfterSteps(ids, id, j);
    }
  }

  /** The carousel itself: seven ticks from any tab return to it, every tab shown on the way. */
  lemma SevenTicksCycle(id: string)
    requires id in TabIds
    ensures AdvancedBy(TabIds, id, 7) == id
    ensures forall j :: 0 <= j < 7 ==> AdvancedBy(TabIds, id, StepsTo(FindIndex(TabIds, id), j, 7)) == TabIds[j]
  {
    TabIdsDistinct();
    FullCycle(TabIds, id);
  }

  /** The component's state. */
  class HeroTabs {
    /** The id of `activeTab`. */
    var activeTab: string
    var autoPlay: bool
    /** `animationsEnabled` from the animation context. */
    var animationsEnabled: bool

    /** The active tab is always one of the seven. */
    ghost predicate Valid()
      reads this
    {
      activeTab in TabIds
    }

    /** The first render: the first tab, auto-play on. */
    constructor (animationsEnabled: bool)
      ensures Valid() && activeTab == "word" && autoPlay == (animationsEnabled)
      ensures this.animationsEnabled == animationsEnabled
    {
      activeTab := TabIds[0];
      autoPlay := true;
      this.animationsEnabled := animationsEnabled;
      if !animationsEnabled {
        autoPlay := false;
      }
    }

    /** One firing of the 5-second interval; no interval runs without auto-play and
        animations. */
    method Tick()
      requires Valid()
      modifies this
      ensures Valid()
      ensures autoPlay == old(autoPlay) && animationsEnabled == old(animationsEnabled)
      ensures activeTab == if old(autoPlay) && old(animationsEnabled) then Advanced(TabIds, old(activeTab)) else old(activeTab)
    {
      if !autoPlay || !animationsEnabled {
        return;
      }
      var currentIndex := FindIndex(TabIds, activeTab);
      var nextIndex := (currentIndex + 1) % |TabIds|;
      activeTab := TabIds[nextIndex];
    }

    /** A click on a tab button shows it and stops the rotation. */
    method Click(i: nat)
      requires i < |TabIds|
      modifies this
      ensures Valid() && activeTab == TabIds[i] && !autoPlay && animationsEnabled == old(animationsEnabled)
    {
      activeTab := TabIds[i];
      autoPlay := false;
    }

    /** A change of `animationsEnabled` and the effect it triggers: turning animations off stops
        the rotation for good, turning them on does not restart it. */
    method SetAnimationsEnabled(enabled: bool)
      modifies this
      ensures animationsEnabled == enabled && activeTab == old(activeTab)
      ensures autoPlay == (old(autoPlay) && enabled)
    {
      animationsEnabled := enabled;
      if !enabled {
        autoPlay := false;
      }
    }
  }
}
