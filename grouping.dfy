/**
 * Greedy grouping of similar texts, the loop shared by smart_text_grouping in
 * utils.py and _group_similar_texts in translators.py: each text not yet
 * claimed heads a new group and claims, in order, the later unclaimed texts
 * similar to it until the group reaches its size cap.
 *
 * The two programs test the cap at different places (after each addition, or
 * after every unclaimed candidate); since a group only grows by an addition,
 * both stop right after the addition that reaches the cap, and one definition
 * covers both.
 */
module Grouping {
  import opened Strings

  // ---------------------------------------------------------------- specification

  /**
   * The inner loop: candidates j, j+1, ... for the group headed by i. Returns the
   * group's indices and the claimed set after the loop.
   */
  function Scan<T>(texts: seq<T>, similar: (T, T) -> bool, cap: nat, i: nat, j: nat,
                   claimed: set<nat>, group: seq<nat>): (seq<nat>, set<nat>)
    requires i < |texts|
    decreases |texts| - j
  {
    if j >= |texts| then (group, claimed)
    else if j in claimed then Scan(texts, similar, cap, i, j + 1, claimed, group)
    else if similar(texts[i], texts[j]) then
      if |group| + 1 >= cap then (group + [j], claimed + {j})
      else Scan(texts, similar, cap, i, j + 1, claimed + {j}, group + [j])
    else Scan(texts, similar, cap, i, j + 1, claimed, group)
  }

  /** The outer loop from index i on, given the indices already claimed. */
  function GroupFrom<T>(texts: seq<T>, similar: (T, T) -> bool, cap: nat, i: nat, claimed: set<nat>): seq<seq<nat>>
    decreases |texts| - i
  {
    if i >= |texts| then []
    else if i in claimed then GroupFrom(texts, similar, cap, i + 1, claimed)
    else
      var r := Scan(texts, similar, cap, i, i + 1, claimed + {i}, [i]);
      [r.0] + GroupFrom(texts, similar, cap, i + 1, r.1)
  }

  /** The groups, as lists of positions in the input. */
  function GroupIndices<T>(texts: seq<T>, similar: (T, T) -> bool, cap: nat): seq<seq<nat>> {
    GroupFrom(texts, similar, cap, 0, {})
  }

  function Flatten(groups: seq<seq<nat>>): seq<nat> {
    if groups == [] then [] else groups[0] + Flatten(groups[1..])
  }

  predicate Increasing(s: seq<nat>) {
    forall a, b :: 0 <= a < b < |s| ==> s[a] < s[b]
  }

  predicate Distinct(s: seq<nat>) {
    forall a, b :: 0 <= a < b < |s| ==> s[a] != s[b]
  }

  /** groups holds, position for position, the texts that indices points to. */
  predicate Holds<T(==)>(texts: seq<T>, indices: seq<seq<nat>>, groups: seq<seq<T>>) {
    |groups| == |indices|
    && forall m :: 0 <= m < |groups| ==>
         |groups[m]| == |indices[m]|
         && forall k :: 0 <= k < |groups[m]| ==> indices[m][k] < |texts| && groups[m][k] == texts[indices[m][k]]
  }

  /**
   * The shape the groups have: every group is non-empty, increasing and at most
   * cap long; each member after the head is similar to the head; and a group's
   * head is below every index of that group and of every later group, so it is
   * the lowest index not claimed by an earlier group.
   */
  predicate WellGrouped<T>(texts: seq<T>, similar: (T, T) -> bool, cap: nat, groups: seq<seq<nat>>) {
    (forall m :: 0 <= m < |groups| ==> 1 <= |groups[m]| <= cap && Increasing(groups[m]))
    && (forall m, k :: 0 <= m < |groups| && 0 <= k < |groups[m]| ==> groups[m][k] < |texts|)
    && (forall m, k :: 0 <= m < |groups| && 1 <= k < |groups[m]| ==>
          similar(texts[groups[m][0]], texts[groups[m][k]]))
    && (forall m, m2, k :: 0 <= m <= m2 < |groups| && 0 <= k < |groups[m2]| ==> groups[m][0] <= groups[m2][k])
  }

  // ---------------------------------------------------------------- properties

  lemma {:induction false} ScanFacts<T>(texts: seq<T>, similar: (T, T) -> bool, cap: nat, i: nat, j: nat,
                                       claimed: set<nat>, group: seq<nat>) returns (g: seq<nat>, c: set<nat>)
    requires i < j <= |texts|
    requires 1 <= |group| < cap && Increasing(group) && group[0] == i
    requires forall k :: 0 <= k < |group| ==> group[k] < j
    requires forall k :: 1 <= k < |group| ==> similar(texts[i], texts[group[k]])
    ensures (g, c) == Scan(texts, similar, cap, i, j, claimed, group)
    ensures |group| <= |g| <= cap && g[..|group|] == group && g[0] == i
    ensures Increasing(g)
    ensures forall k :: 0 <= k < |g| ==> g[k] < |texts|
    ensures forall k :: |group| <= k < |g| ==> j <= g[k] && g[k] !in claimed
    ensures forall k :: 1 <= k < |g| ==> similar(texts[i], texts[g[k]])
    ensures forall x :: x in c <==> x in claimed || x in g[|group|..]
    decreases |texts| - j
  {
    if j == |texts| {
      g, c := group, claimed;
    } else if j in claimed {
      g, c := ScanFacts(texts, similar, cap, i, j + 1, claimed, group);
    } else if similar(texts[i], texts[j]) {
      var longer := group + [j];
      if |longer| >= cap {
        g, c := longer, claimed + {j};
      } else {
        g, c := ScanFacts(texts, similar, cap, i, j + 1, claimed + {j}, longer);
        ScanTakesJ(claimed, group, j, g, c);
      }
    } else {
      g, c := ScanFacts(texts, similar, cap, i, j + 1, claimed, group);
    }
  }

  /** What a scan that went on after taking j says about the group before j was taken. */
  lemma ScanTakesJ(claimed: set<nat>, group: seq<nat>, j: nat, g: seq<nat>, c: set<nat>)
    requires |group + [j]| <= |g| && g[..|group + [j]|] == group + [j]
    requires forall k :: |group + [j]| <= k < |g| ==> j + 1 <= g[k] && g[k] !in claimed + {j}
    requires forall x :: x in c <==> x in claimed + {j} || x in g[|group + [j]|..]
    requires j !in claimed
    ensures |group| <= |g| && g[..|group|] == group
    ensures forall k :: |group| <= k < |g| ==> j <= g[k] && g[k] !in claimed
    ensures forall x :: x in c <==> x in claimed || x in g[|group|..]
  {
    var longer := group + [j];
    assert g[..|group|] == g[..|longer|][..|group|];
    assert g[|group|..] == [j] + g[|longer|..];
    assert g[|group|] == j;
  }

  lemma FlattenMember(a: seq<nat>, rest: seq<seq<nat>>)
    ensures Flatten([a] + rest) == a + Flatten(rest)
  {
    assert ([a] + rest)[1..] == rest;
  }

  lemma DistinctConcat(a: seq<nat>, b: seq<nat>)
    requires Distinct(a) && Distinct(b)
    requires forall x :: x in a ==> x !in b
    ensures Distinct(a + b)
  {
    forall p, q | 0 <= p < q < |a + b| ensures (a + b)[p] != (a + b)[q] {
      if p < |a| && q >= |a| {
        assert (a + b)[q] == b[q - |a|];
        assert (a + b)[p] in a;
      }
    }
  }

  /** A group headed by i, put in front of well-formed groups whose indices all exceed i. */
  lemma ConsWellGrouped<T>(texts: seq<T>, similar: (T, T) -> bool, cap: nat, i: nat, g: seq<nat>, rest: seq<seq<nat>>)
    requires 1 <= |g| <= cap && Increasing(g) && g[0] == i
    requires forall k :: 0 <= k < |g| ==> g[k] < |texts|
    requires forall k :: 1 <= k < |g| ==> similar(texts[i], texts[g[k]])
    requires WellGrouped(texts, similar, cap, rest)
    requires forall x :: x in Flatten(rest) ==> i < x
    ensures WellGrouped(texts, similar, cap, [g] + rest)
  {
    var gs := [g] + rest;
    forall m, m2, k | 0 <= m <= m2 < |gs| && 0 <= k < |gs[m2]| ensures gs[m][0] <= gs[m2][k] {
      if m == 0 && m2 > 0 {
        assert gs[m2] == rest[m2 - 1];
        FlattenHas(rest, m2 - 1, k);
      } else if m > 0 {
        assert gs[m] == rest[m - 1] && gs[m2] == rest[m2 - 1];
      }
    }
    forall m, k | 0 <= m < |gs| && 1 <= k < |gs[m]| ensures similar(texts[gs[m][0]], texts[gs[m][k]]) {
      if m > 0 {
        assert gs[m] == rest[m - 1];
      }
    }
  }

  /** Everything the outer loop produces from index i on, given the claimed set. */
  /** The groups from i on hold each unclaimed index from i on exactly once, and nothing else. */
  lemma {:induction false} GroupFromCovers<T>(texts: seq<T>, similar: (T, T) -> bool, cap: nat, i: nat, claimed: set<nat>)
    requires cap >= 2
    ensures Distinct(Flatten(GroupFrom(texts, similar, cap, i, claimed)))
    ensures forall x :: x in Flatten(GroupFrom(texts, similar, cap, i, claimed)) <==> i <= x < |texts| && x !in claimed
    decreases |texts| - i
  {
    if i < |texts| {
      if i in claimed {
        GroupFromCovers(texts, similar, cap, i + 1, claimed);
      } else {
        var g, c := ScanFacts(texts, similar, cap, i, i + 1, claimed + {i}, [i]);
        var rest := GroupFrom(texts, similar, cap, i + 1, c);
        GroupFromCovers(texts, similar, cap, i + 1, c);
        assert GroupFrom(texts, similar, cap, i, claimed) == [g] + rest;
        FlattenMember(g, rest);
        GroupInClaimed(g, c, i);
        DistinctConcat(g, Flatten(rest));
        ConsMembers(g, Flatten(rest), i, |texts|, claimed, c);
      }
    }
  }

  /** The groups from i on have the shape WellGrouped describes. */
  lemma {:induction false} GroupFromShape<T>(texts: seq<T>, similar: (T, T) -> bool, cap: nat, i: nat, claimed: set<nat>)
    requires cap >= 2
    ensures WellGrouped(texts, similar, cap, GroupFrom(texts, similar, cap, i, claimed))
    decreases |texts| - i
  {
    if i < |texts| {
      if i in claimed {
        GroupFromShape(texts, similar, cap, i + 1, claimed);
      } else {
        var g, c := ScanFacts(texts, similar, cap, i, i + 1, claimed + {i}, [i]);
        var rest := GroupFrom(texts, similar, cap, i + 1, c);
        GroupFromShape(texts, similar, cap, i + 1, c);
        GroupFromCovers(texts, similar, cap, i + 1, c);
        assert GroupFrom(texts, similar, cap, i, claimed) == [g] + rest;
        ConsWellGrouped(texts, similar, cap, i, g, rest);
      }
    }
  }

  lemma ConsMembers(g: seq<nat>, later: seq<nat>, i: nat, n: nat, claimed: set<nat>, c: set<nat>)
    requires i < n && i !in claimed && |g| >= 1 && g[0] == i
    requires forall x :: x in c <==> x in claimed + {i} || x in g[1..]
    requires forall k :: 1 <= k < |g| ==> i + 1 <= g[k] < n && g[k] !in claimed + {i}
    requires forall x :: x in later <==> i + 1 <= x < n && x !in c
    ensures forall x :: x in g + later <==> i <= x < n && x !in claimed
  {
    assert g == [i] + g[1..];
    forall x ensures x in g + later <==> i <= x < n && x !in claimed {
      if x in g[1..] {
        var k :| 0 <= k < |g[1..]| && g[1..][k] == x;
        assert g[k + 1] == x;
      }
    }
  }

  lemma GroupInClaimed(g: seq<nat>, c: set<nat>, i: nat)
    requires |g| >= 1 && g[0] == i && Increasing(g)
    requires forall x :: x in g[1..] ==> x in c
    ensures Distinct(g)
    ensures forall x :: x in g ==> x == i || x in c
  {
    forall x | x in g ensures x == i || x in c {
      if x != i { assert x in g[1..]; }
    }
  }

  lemma {:induction false} FlattenHas(groups: seq<seq<nat>>, m: nat, k: nat)
    requires m < |groups| && k < |groups[m]|
    ensures groups[m][k] in Flatten(groups)
    decreases m
  {
    if m > 0 {
      FlattenHas(groups[1..], m - 1, k);
    }
  }

  /**
   * The groups partition the positions of the input (each position in exactly one
   * group) and have the shape WellGrouped describes.
   */
  lemma GroupIndicesPartition<T>(texts: seq<T>, similar: (T, T) -> bool, cap: nat)
    requires cap >= 2
    ensures WellGrouped(texts, similar, cap, GroupIndices(texts, similar, cap))
    ensures Distinct(Flatten(GroupIndices(texts, similar, cap)))
    ensures forall x: nat :: x in Flatten(GroupIndices(texts, similar, cap)) <==> x < |texts|
  {
    GroupFromShape(texts, similar, cap, 0, {});
    GroupFromCovers(texts, similar, cap, 0, {});
  }

  /**
   * No group stops short: a text after a group's head that no earlier group took
   * and that is similar to the head is left out of that group only when the
   * group is full.
   */
  predicate Maximal<T>(texts: seq<T>, similar: (T, T) -> bool, cap: nat, groups: seq<seq<nat>>) {
    forall m, x :: 0 <= m < |groups| && |groups[m]| > 0 && groups[m][0] < x < |texts|
      && x !in Flatten(groups[..m]) && similar(texts[groups[m][0]], texts[x]) && x !in groups[m]
      ==> |groups[m]| == cap
  }

  /** A scan keeps the group it started from and stops short of a similar unclaimed candidate only when full. */
  lemma {:induction false} ScanMaximal<T>(texts: seq<T>, similar: (T, T) -> bool, cap: nat, i: nat, j: nat,
                                          claimed: set<nat>, group: seq<nat>)
    requires i < |texts| && |group| < cap
    ensures forall x :: x in group ==> x in Scan(texts, similar, cap, i, j, claimed, group).0
    ensures forall x :: j <= x < |texts| && x !in claimed && similar(texts[i], texts[x])
              && x !in Scan(texts, similar, cap, i, j, claimed, group).0
              ==> |Scan(texts, similar, cap, i, j, claimed, group).0| == cap
    decreases |texts| - j
  {
    if j < |texts| {
      if j in claimed || !similar(texts[i], texts[j]) {
        ScanMaximal(texts, similar, cap, i, j + 1, claimed, group);
      } else if |group| + 1 < cap {
        ScanMaximal(texts, similar, cap, i, j + 1, claimed + {j}, group + [j]);
      }
    }
  }

  lemma FlattenPrefix(groups: seq<seq<nat>>, m: nat)
    requires 0 < m <= |groups|
    ensures Flatten(groups[..m]) == groups[0] + Flatten(groups[1..][..m - 1])
  {
    assert groups[..m] == [groups[0]] + groups[1..][..m - 1];
    FlattenMember(groups[0], groups[1..][..m - 1]);
  }

  /** Maximal for group m of the groups built from index i on, measured against the indices claimed before i. */
  lemma {:induction false} GroupFromMaximal<T>(texts: seq<T>, similar: (T, T) -> bool, cap: nat, i: nat, claimed: set<nat>,
                                               m: nat, x: nat)
    requires cap >= 2
    requires var gs := GroupFrom(texts, similar, cap, i, claimed);
      m < |gs| && |gs[m]| > 0 && gs[m][0] < x < |texts| && x !in claimed
      && x !in Flatten(gs[..m]) && similar(texts[gs[m][0]], texts[x]) && x !in gs[m]
    ensures |GroupFrom(texts, similar, cap, i, claimed)[m]| == cap
    decreases |texts| - i
  {
    if i in claimed {
      assert GroupFrom(texts, similar, cap, i, claimed) == GroupFrom(texts, similar, cap, i + 1, claimed);
      GroupFromMaximal(texts, similar, cap, i + 1, claimed, m, x);
    } else {
      var g, c := ScanFacts(texts, similar, cap, i, i + 1, claimed + {i}, [i]);
      var rest := GroupFrom(texts, similar, cap, i + 1, c);
      var gs := [g] + rest;
      assert GroupFrom(texts, similar, cap, i, claimed) == gs;
      if m == 0 {
        ScanMaximal(texts, similar, cap, i, i + 1, claimed + {i}, [i]);
        assert x !in claimed + {i};
      } else {
        FlattenPrefix(gs, m);
        assert gs[1..] == rest && gs[m] == rest[m - 1];
        assert x !in g[1..] && x != g[0];
        GroupFromMaximal(texts, similar, cap, i + 1, c, m - 1, x);
      }
    }
  }

  /** The greedy groups are maximal: each head took every later free similar text until its group was full. */
  lemma GroupIndicesMaximal<T>(texts: seq<T>, similar: (T, T) -> bool, cap: nat)
    requires cap >= 2
    ensures Maximal(texts, similar, cap, GroupIndices(texts, similar, cap))
  {
    var gs := GroupIndices(texts, similar, cap);
    forall m, x | 0 <= m < |gs| && |gs[m]| > 0 && gs[m][0] < x < |texts|
      && x !in Flatten(gs[..m]) && similar(texts[gs[m][0]], texts[x]) && x !in gs[m]
      ensures |gs[m]| == cap
    {
      GroupFromMaximal(texts, similar, cap, 0, {}, m, x);
    }
  }

  // ---------------------------------------------------------------- the loop

  /** The greedy loop, returning the groups of texts and the positions they came from. */
  method GroupGreedy<T(==)>(texts: seq<T>, similar: (T, T) -> bool, cap: nat) returns (groups: seq<seq<T>>, indices: seq<seq<nat>>)
    ensures indices == GroupIndices(texts, similar, cap)
    ensures Holds(texts, indices, groups)
  {
    var claimed: set<nat> := {};
    groups, indices := [], [];
    var i := 0;
    while i < |texts|
      invariant i <= |texts|
      invariant indices + GroupFrom(texts, similar, cap, i, claimed) == GroupIndices(texts, similar, cap)
      invariant Holds(texts, indices, groups)
    {
      if i in claimed {
        i := i + 1;
        continue;
      }
      var group: seq<nat>, members := [i], [texts[i]];
      claimed := claimed + {i};
      ghost var target := Scan(texts, similar, cap, i, i + 1, claimed, group);
      var j := i + 1;
      while j < |texts|
        invariant i < j <= |texts|
        invariant Scan(texts, similar, cap, i, j, claimed, group) == target
        invariant |members| == |group|
        invariant forall k :: 0 <= k < |group| ==> group[k] < |texts| && members[k] == texts[group[k]]
      {
        if j !in claimed && similar(texts[i], texts[j]) {
          group, members := group + [j], members + [texts[j]];
          claimed := claimed + {j};
          if |group| >= cap {
            break;
          }
        }
        j := j + 1;
      }
      assert (group, claimed) == target;
      groups, indices := groups + [members], indices + [group];
      i := i + 1;
    }
  }

  // ---------------------------------------------------------------- smart_text_grouping

  /** set(text.lower().split()) */
  function WordSet(text: String): set<String> {
    set w | w in Words(Lower(text))
  }

  /**
   * The Jaccard similarity of the two word sets is at least num/den; when either
   * set is empty the similarity is 0, compared with the threshold like any other value.
   */
  predicate JaccardAtLeast(a: String, b: String, num: int, den: nat) {
    var w1, w2 := WordSet(a), WordSet(b);
    if w1 == {} || w2 == {} then num <= 0
    else |w1 * w2| * den >= num * |w1 + w2|
  }

  /** The similarity test of smart_text_grouping as a relation. */
  function Jaccard(num: int, den: nat): (String, String) -> bool {
    (a: String, b: String) => JaccardAtLeast(a, b, num, den)
  }

  /**
   * smart_text_grouping with similarity_threshold = num/den: the greedy groups of
   * at most 10 texts. The positions the groups came from are returned beside them.
   */
  method SmartTextGrouping(texts: seq<String>, num: int, den: nat) returns (groups: seq<seq<String>>, indices: seq<seq<nat>>)
    requires den > 0
    ensures indices == GroupIndices(texts, Jaccard(num, den), 10)
    ensures Holds(texts, indices, groups)
    ensures Distinct(Flatten(indices)) && forall x: nat :: x in Flatten(indices) <==> x < |texts|
    ensures WellGrouped(texts, Jaccard(num, den), 10, indices)
    ensures Maximal(texts, Jaccard(num, den), 10, indices)
    ensures forall m, k :: 0 <= m < |groups| && 1 <= k < |groups[m]| ==> JaccardAtLeast(groups[m][0], groups[m][k], num, den)
  {
    groups, indices := GroupGreedy(texts, Jaccard(num, den), 10);
    GroupIndicesPartition(texts, Jaccard(num, den), 10);
    GroupIndicesMaximal(texts, Jaccard(num, den), 10);
  }
}
