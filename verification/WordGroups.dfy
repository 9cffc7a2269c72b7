/** Splitting an over-long segment at its widest pauses (`_split_word_groups`).

    The code always splits the widest pause over all over-long groups, first one
    on ties.  That global order turns out not to matter: the result is what each
    group would give if it were split at its own first widest pause, recursively. */
module WordGroups {
  import opened Options

  datatype Word = Word(start: real, end: real, text: string)

  type Group = seq<Word>

  const MAX_LINE_SPAN: real := 12.0
  const MIN_SPLIT_GAP: real := 1.0

  function Span(g: Group): real
    requires g != []
  {
    g[|g| - 1].end - g[0].start
  }

  function Gap(g: Group, i: int): real
    requires 0 <= i < |g| - 1
  {
    g[i + 1].start - g[i].end
  }

  predicate CanSplit(g: Group, i: int) {
    0 <= i < |g| - 1 && Span(g) > MAX_LINE_SPAN && Gap(g, i) >= MIN_SPLIT_GAP
  }

  ghost predicate FirstWidest(g: Group, i: int) {
    && CanSplit(g, i)
    && forall k :: CanSplit(g, k) ==> Gap(g, k) <= Gap(g, i) && (k < i ==> Gap(g, k) < Gap(g, i))
  }

  /** Reference: split a group at its own first widest pause until none is left. */
  ghost function Split(g: Group): seq<Group>
    decreases |g|
  {
    if exists i :: FirstWidest(g, i) then
      var i :| FirstWidest(g, i);
      Split(g[..i + 1]) + Split(g[i + 1..])
    else [g]
  }

  lemma {:induction false} SplitAt(g: Group, i: int)
    requires FirstWidest(g, i)
    ensures Split(g) == Split(g[..i + 1]) + Split(g[i + 1..])
  {
    hide Gap, Span;
    forall k | FirstWidest(g, k) ensures k == i {
      assert CanSplit(g, k) && CanSplit(g, i);
    }
  }

  lemma {:induction false} WidestExists(g: Group, i: int, bound: int) returns (w: int)
    requires i < bound && CanSplit(g, i)
    ensures CanSplit(g, w) && w < bound
    ensures forall k :: k < bound && CanSplit(g, k) ==> Gap(g, k) <= Gap(g, w) && (k < w ==> Gap(g, k) < Gap(g, w))
    decreases bound
  {
    if forall k :: k < bound - 1 ==> !CanSplit(g, k) {
      w := i;
    } else {
      var k :| k < bound - 1 && CanSplit(g, k);
      w := WidestExists(g, k, bound - 1);
      if CanSplit(g, bound - 1) && Gap(g, bound - 1) > Gap(g, w) {
        w := bound - 1;
      }
    }
  }

  /** A group is left alone exactly when it is short enough or has no wide pause. */
  lemma {:induction false} SplitStops(g: Group)
    ensures (exists i :: FirstWidest(g, i)) <==> exists i :: CanSplit(g, i)
    ensures (forall i :: !CanSplit(g, i)) ==> Split(g) == [g]
  {
    if i :| CanSplit(g, i) {
      var w := WidestExists(g, i, |g|);
      assert FirstWidest(g, w);
    }
  }

  ghost function Flatten(groups: seq<Group>): Group {
    if groups == [] then [] else groups[0] + Flatten(groups[1..])
  }

  ghost function SplitAll(groups: seq<Group>): seq<Group> {
    if groups == [] then [] else Split(groups[0]) + SplitAll(groups[1..])
  }

  lemma {:induction false} FlattenConcat(x: seq<Group>, y: seq<Group>)
    ensures Flatten(x + y) == Flatten(x) + Flatten(y)
  {
    if x == [] {
      assert x + y == y;
    } else {
      assert (x + y)[1..] == x[1..] + y;
      calc {
        Flatten(x + y);
        x[0] + Flatten(x[1..] + y);
        { FlattenConcat(x[1..], y); }
        x[0] + (Flatten(x[1..]) + Flatten(y));
        (x[0] + Flatten(x[1..])) + Flatten(y);
        Flatten(x) + Flatten(y);
      }
    }
  }

  lemma {:induction false} SplitAllConcat(x: seq<Group>, y: seq<Group>)
    ensures SplitAll(x + y) == SplitAll(x) + SplitAll(y)
  {
    hide Split;
    if x == [] {
      assert x + y == y;
    } else {
      SplitAllConcat(x[1..], y);
      assert (x + y)[1..] == x[1..] + y;
    }
  }

  ghost predicate NoneEmpty(groups: seq<Group>) {
    forall k :: 0 <= k < |groups| ==> groups[k] != []
  }

  ghost predicate Settled(groups: seq<Group>) {
    forall k, i :: 0 <= k < |groups| ==> !CanSplit(groups[k], i)
  }

  /** Neighbouring groups are separated by a pause of at least the minimum. */
  ghost predicate WidelySeparated(groups: seq<Group>)
    requires NoneEmpty(groups)
  {
    forall k :: 0 <= k < |groups| - 1 ==>
                  groups[k + 1][0].start - groups[k][|groups[k]| - 1].end >= MIN_SPLIT_GAP
  }

  /** `groups` regroups `g`: every word in order, no empty group. */
  ghost predicate Regroups(g: Group, groups: seq<Group>) {
    && groups != [] && NoneEmpty(groups) && Flatten(groups) == g
    && Flatten(groups) != []
    && groups[0][0] == g[0] && groups[|groups| - 1][|groups[|groups| - 1]| - 1] == g[|g| - 1]
  }

  /** Splitting keeps every word in order, makes no empty group, leaves only groups that are
      short or have no wide pause, and cuts only at wide pauses. */
  lemma {:induction false} SplitIsSound(g: Group)
    requires g != []
    ensures Regroups(g, Split(g))
    ensures Settled(Split(g)) && WidelySeparated(Split(g))
    decreases |g|
  {
    hide Split;
    hide Regroups;
    hide Settled;
    hide WidelySeparated;
    SplitStops(g);
    if i :| FirstWidest(g, i) {
      SplitAt(g, i);
      SplitIsSound(g[..i + 1]);
      SplitIsSound(g[i + 1..]);
      var x, y := Split(g[..i + 1]), Split(g[i + 1..]);
      JoinRegroups(g, i, x, y);
      JoinSeparated(g, i, x, y);
      JoinSettled(x, y);
    } else {
      SingletonSound(g);
    }
  }

  lemma {:induction false} SingletonSound(g: Group)
    requires g != [] && forall i :: !CanSplit(g, i)
    ensures Regroups(g, [g]) && Settled([g]) && WidelySeparated([g])
  {
    assert [g][1..] == [];
  }

  lemma {:induction false} JoinRegroups(g: Group, i: int, x: seq<Group>, y: seq<Group>)
    requires CanSplit(g, i)
    requires Regroups(g[..i + 1], x) && Regroups(g[i + 1..], y)
    ensures Regroups(g, x + y)
  {
    FlattenConcat(x, y);
    assert g[..i + 1] + g[i + 1..] == g;
  }

  lemma {:induction false} JoinSeparated(g: Group, i: int, x: seq<Group>, y: seq<Group>)
    requires CanSplit(g, i)
    requires Regroups(g[..i + 1], x) && Regroups(g[i + 1..], y)
    requires WidelySeparated(x) && WidelySeparated(y)
    ensures NoneEmpty(x + y) && WidelySeparated(x + y)
  {
    hide Flatten;
    var z: seq<Group> := x + y;
    forall k | 0 <= k < |z| - 1
      ensures z[k + 1][0].start - z[k][|z[k]| - 1].end >= MIN_SPLIT_GAP
    {
      if k == |x| - 1 {
        assert z[k] == x[k] && z[k + 1] == y[0];
      } else if k >= |x| {
        assert z[k] == y[k - |x|] && z[k + 1] == y[k + 1 - |x|];
      }
    }
  }

  lemma {:induction false} JoinSettled(x: seq<Group>, y: seq<Group>)
    requires Settled(x) && Settled(y)
    ensures Settled(x + y)
  {
  }

  lemma {:induction false} SplitAllSettled(groups: seq<Group>)
    requires Settled(groups)
    ensures SplitAll(groups) == groups
  {
    if groups != [] {
      SplitStops(groups[0]);
      assert forall i :: !CanSplit(groups[0], i);
      SplitAllSettled(groups[1..]);
      assert groups == [groups[0]] + groups[1..];
    }
  }

  lemma {:induction false} FlattenSize(groups: seq<Group>)
    requires NoneEmpty(groups)
    ensures |groups| <= |Flatten(groups)|
  {
    if groups != [] {
      FlattenSize(groups[1..]);
    }
  }

  lemma {:induction false} PairOf(l: Group, r: Group)
    ensures SplitAll([l, r]) == Split(l) + Split(r) && Flatten([l, r]) == l + r
  {
    hide Split;
    assert [l, r][1..] == [r];
    assert [r][1..] == [];
    assert SplitAll([r]) == Split(r) + [] && Flatten([r]) == r;
  }

  lemma {:induction false} JustOne(g: Group)
    ensures SplitAll([g]) == Split(g) && Flatten([g]) == g
  {
    hide Split;
    assert [g][1..] == [];
  }

  /** Cutting group `at` at its first widest pause changes neither the words nor the final result. */
  lemma {:induction false} CutStep(groups: seq<Group>, at: nat, i: int)
    requires at < |groups| && FirstWidest(groups[at], i) && NoneEmpty(groups)
    ensures var cut := groups[..at] + [groups[at][..i + 1], groups[at][i + 1..]] + groups[at + 1..];
            && SplitAll(cut) == SplitAll(groups)
            && Flatten(cut) == Flatten(groups)
            && NoneEmpty(cut)
  {
    hide Split, SplitAll, Flatten, Gap;
    var g := groups[at];
    var l, r := g[..i + 1], g[i + 1..];
    var front, back := groups[..at], groups[at + 1..];
    SplitAt(g, i);
    assert groups == front + [g] + back;
    SplitAllConcat(front + [g], back);
    SplitAllConcat(front, [g]);
    SplitAllConcat(front + [l, r], back);
    SplitAllConcat(front, [l, r]);
    PairOf(l, r);
    JustOne(g);
    FlattenConcat(front + [g], back);
    FlattenConcat(front, [g]);
    FlattenConcat(front + [l, r], back);
    FlattenConcat(front, [l, r]);
    assert l + r == g;
  }

  datatype Best = Best(gap: real, group: nat, word: nat)

  ghost predicate Scanned(g: int, w: int, group: int, word: int) {
    g < group || (g == group && w < word)
  }

  /** `best` is the first widest cut among the positions before `(group, word)`. */
  ghost predicate BestSoFar(groups: seq<Group>, best: Option<Best>, group: int, word: int) {
    match best
    case None => forall g, w :: 0 <= g < |groups| && Scanned(g, w, group, word) ==> !CanSplit(groups[g], w)
    case Some(b) =>
      && b.group < |groups| && Scanned(b.group, b.word, group, word)
      && CanSplit(groups[b.group], b.word) && Gap(groups[b.group], b.word) == b.gap
      && forall g, w :: 0 <= g < |groups| && Scanned(g, w, group, word) && CanSplit(groups[g], w) ==>
                          Gap(groups[g], w) <= b.gap && (Scanned(g, w, b.group, b.word) ==> Gap(groups[g], w) < b.gap)
  }

  /** One pass over all groups finds the widest pause of all over-long groups, the first one on ties. */
  method FindWidest(groups: seq<Group>) returns (best: Option<Best>)
    requires NoneEmpty(groups)
    ensures BestSoFar(groups, best, |groups|, 0)
    ensures best.None? ==> Settled(groups)
    ensures best.Some? ==> best.value.group < |groups| && FirstWidest(groups[best.value.group], best.value.word)
  {
    best := None;
    for gi := 0 to |groups|
      invariant BestSoFar(groups, best, gi, 0)
    {
      var group := groups[gi];
      if Span(group) <= MAX_LINE_SPAN {
        assert forall w :: !CanSplit(group, w);
        continue;
      }
      for wi := 0 to |group| - 1
        invariant BestSoFar(groups, best, gi, wi)
      {
        var gap := Gap(group, wi);
        if gap < MIN_SPLIT_GAP {
          continue;
        }
        if best.None? || gap > best.value.gap {
          best := Some(Best(gap, gi, wi));
        }
      }
    }
    WidestOfAll(groups, best);
  }

  /** The widest pause of all is in particular the first widest of its own group. */
  lemma {:induction false} WidestOfAll(groups: seq<Group>, best: Option<Best>)
    requires NoneEmpty(groups) && BestSoFar(groups, best, |groups|, 0)
    ensures best.None? ==> Settled(groups)
    ensures best.Some? ==> best.value.group < |groups| && FirstWidest(groups[best.value.group], best.value.word)
  {
    if best.Some? {
      var b := best.value;
      forall k | CanSplit(groups[b.group], k)
        ensures Gap(groups[b.group], k) <= b.gap && (k < b.word ==> Gap(groups[b.group], k) < b.gap)
      {
        assert Scanned(b.group, k, |groups|, 0);
      }
    } else {
      forall k, i | 0 <= k < |groups| ensures !CanSplit(groups[k], i) {
        assert Scanned(k, i, |groups|, 0);
      }
    }
  }

  /** The greedy loop terminates and gives the recursive reference; the words survive in order. */
  method SplitWordGroups(words: Group) returns (groups: seq<Group>)
    requires words != []
    ensures groups == Split(words)
    ensures Flatten(groups) == words
    ensures NoneEmpty(groups) && Settled(groups) && WidelySeparated(groups)
  {
    hide Split;
    groups := [words];
    assert SplitAll(groups) == Split(words);
    while true
      invariant NoneEmpty(groups)
      invariant SplitAll(groups) == Split(words)
      invariant Flatten(groups) == words
      decreases |words| - |groups|
    {
      var best := FindWidest(groups);
      if best.None? {
        break;
      }
      var gi, wi := best.value.group, best.value.word;
      var group := groups[gi];
      CutStep(groups, gi, wi);
      FlattenSize(groups);
      groups := groups[..gi] + [group[..wi + 1], group[wi + 1..]] + groups[gi + 1..];
      FlattenSize(groups);
    }
    SplitAllSettled(groups);
    SplitIsSound(words);
  }
}
