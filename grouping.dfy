/**
 * The grouping that multi-label prediction applies to its selected labels,
 * exactly as the loop does it: a new group starts when a label's sentence
 * index is greater than the number of groups already closed. This matches
 * "one group per input" only when the selections are dense enough
 * (`GroupMatchesRowsIff`); sparse selections shift, drop or split rows.
 */
module Grouping {
  import opened Types

  /** The concatenation of all groups. */
  function Flatten(groups: seq<seq<Label>>): seq<Label> {
    if groups == [] then [] else Flatten(groups[..|groups| - 1]) + groups[|groups| - 1]
  }

  /** The labels of `ls` that belong to input `sentence`, in order. */
  function OfSentence(ls: seq<Label>, sentence: nat): seq<Label> {
    if ls == [] then []
    else OfSentence(ls[..|ls| - 1], sentence)
         + (if ls[|ls| - 1].sentence == sentence then [ls[|ls| - 1]] else [])
  }

  /** One group per input position, each holding that input's labels: the documented result. */
  function ByRow(ls: seq<Label>, n: nat): seq<seq<Label>> {
    seq(n, (i: int) requires 0 <= i => OfSentence(ls, i))
  }

  predicate SentenceSorted(ls: seq<Label>) {
    forall i, j :: 0 <= i < j < |ls| ==> ls[i].sentence <= ls[j].sentence
  }

  predicate SentencesBelow(ls: seq<Label>, n: nat) {
    forall j :: 0 <= j < |ls| ==> ls[j].sentence < n
  }

  predicate HasSentence(ls: seq<Label>, sentence: nat) {
    exists j :: 0 <= j < |ls| && ls[j].sentence == sentence
  }

  predicate SameSentence(group: seq<Label>) {
    forall k :: 0 <= k < |group| ==> group[k].sentence == group[0].sentence
  }

  /** Every group holds labels of a single input. */
  predicate EachGroupOneSentence(groups: seq<seq<Label>>) {
    forall g :: 0 <= g < |groups| ==> SameSentence(groups[g])
  }

  /** Only the first group can be empty. */
  predicate OnlyFirstMayBeEmpty(groups: seq<seq<Label>>) {
    forall g :: 0 < g < |groups| ==> groups[g] != []
  }

  /** Group `g` never holds labels of an input before position `g`. */
  predicate GroupIndexAtMostSentence(groups: seq<seq<Label>>) {
    forall g, k :: 0 <= g < |groups| && 0 <= k < |groups[g]| ==> g <= groups[g][k].sentence
  }

  /**
   * The loop of multi-label prediction from some point on: `labels` are the
   * groups pushed so far, `current` the group being filled, `ls` the labels
   * still to come.
   */
  function GroupFrom(ls: seq<Label>, labels: seq<seq<Label>>, current: seq<Label>): seq<seq<Label>>
    decreases |ls|
  {
    if ls == [] then (if current == [] then labels else labels + [current])
    else if ls[0].sentence > |labels| then GroupFrom(ls[1..], labels + [current], [ls[0]])
    else GroupFrom(ls[1..], labels, current + [ls[0]])
  }

  /** The groups the loop returns for the selected labels `ls`. */
  function Group(ls: seq<Label>): seq<seq<Label>> {
    GroupFrom(ls, [], [])
  }

  lemma {:induction false} FlattenGroupFrom(ls: seq<Label>, labels: seq<seq<Label>>, current: seq<Label>)
    ensures Flatten(GroupFrom(ls, labels, current)) == Flatten(labels) + current + ls
    decreases |ls|
  {
    if ls == [] {
      if current != [] {
        assert (labels + [current])[..|labels|] == labels;
      }
    } else {
      assert ls == [ls[0]] + ls[1..];
      if ls[0].sentence > |labels| {
        FlattenGroupFrom(ls[1..], labels + [current], [ls[0]]);
        assert (labels + [current])[..|labels|] == labels;
      } else {
        FlattenGroupFrom(ls[1..], labels, current + [ls[0]]);
      }
    }
  }

  /** What holds of the loop's accumulators before every iteration. */
  predicate GroupingState(ls: seq<Label>, labels: seq<seq<Label>>, current: seq<Label>) {
    && EachGroupOneSentence(labels)
    && OnlyFirstMayBeEmpty(labels)
    && GroupIndexAtMostSentence(labels)
    && SameSentence(current)
    && (current != [] ==> |labels| <= current[0].sentence)
    && (labels != [] ==> current != [])
    && SentenceSorted(ls)
    && (current != [] && ls != [] ==> current[0].sentence <= ls[0].sentence)
  }

  lemma {:induction false} GroupFromShape(ls: seq<Label>, labels: seq<seq<Label>>, current: seq<Label>)
    requires GroupingState(ls, labels, current)
    ensures EachGroupOneSentence(GroupFrom(ls, labels, current))
    ensures OnlyFirstMayBeEmpty(GroupFrom(ls, labels, current))
    ensures GroupIndexAtMostSentence(GroupFrom(ls, labels, current))
    decreases |ls|
  {
    if ls != [] {
      var l := ls[0];
      if l.sentence > |labels| {
        var labels' := labels + [current];
        assert GroupingState(ls[1..], labels', [l]) by {
          assert labels'[|labels|] == current;
        }
        GroupFromShape(ls[1..], labels', [l]);
      } else {
        var current' := current + [l];
        assert GroupingState(ls[1..], labels, current');
        GroupFromShape(ls[1..], labels, current');
      }
    } else if current != [] {
      var result := labels + [current];
      assert result[|labels|] == current;
    }
  }

  lemma {:induction false} GroupFromKeepsPushed(ls: seq<Label>, labels: seq<seq<Label>>, current: seq<Label>)
    ensures |labels| <= |GroupFrom(ls, labels, current)|
    ensures GroupFrom(ls, labels, current)[..|labels|] == labels
    decreases |ls|
  {
    if ls != [] {
      if ls[0].sentence > |labels| {
        GroupFromKeepsPushed(ls[1..], labels + [current], [ls[0]]);
        assert (labels + [current])[..|labels|] == labels;
      } else {
        GroupFromKeepsPushed(ls[1..], labels, current + [ls[0]]);
      }
    }
  }

  lemma {:induction false} GroupFromNonEmpty(ls: seq<Label>, labels: seq<seq<Label>>, current: seq<Label>)
    requires forall g :: 0 <= g < |labels| ==> labels[g] != []
    requires current != []
    ensures forall g :: 0 <= g < |GroupFrom(ls, labels, current)| ==> GroupFrom(ls, labels, current)[g] != []
    decreases |ls|
  {
    if ls != [] {
      if ls[0].sentence > |labels| {
        GroupFromNonEmpty(ls[1..], labels + [current], [ls[0]]);
      } else {
        GroupFromNonEmpty(ls[1..], labels, current + [ls[0]]);
      }
    }
  }

  /**
   * For labels in sentence order, the loop loses and repeats nothing, each
   * group belongs to one input, only the first group can be empty (and is so
   * exactly when the first selected label is not of input 0), and the result
   * is empty exactly when nothing was selected.
   */
  lemma GroupShape(ls: seq<Label>)
    requires SentenceSorted(ls)
    ensures Flatten(Group(ls)) == ls
    ensures EachGroupOneSentence(Group(ls))
    ensures OnlyFirstMayBeEmpty(Group(ls))
    ensures GroupIndexAtMostSentence(Group(ls))
    ensures Group(ls) == [] <==> ls == []
    ensures ls != [] ==> (Group(ls)[0] == [] <==> ls[0].sentence > 0)
  {
    FlattenGroupFrom(ls, [], []);
    GroupFromShape(ls, [], []);
    if ls != [] {
      var none: seq<seq<Label>> := [];
      assert [] + [ls[0]] == [ls[0]] && none + [[]] == [[]];
      if ls[0].sentence > 0 {
        assert Group(ls) == GroupFrom(ls[1..], [[]], [ls[0]]);
        GroupFromKeepsPushed(ls[1..], [[]], [ls[0]]);
      } else {
        assert Group(ls) == GroupFrom(ls[1..], [], [ls[0]]);
        GroupFromNonEmpty(ls[1..], [], [ls[0]]);
      }
    }
  }

  lemma {:induction false} OfSentenceAbsent(ls: seq<Label>, sentence: nat)
    requires forall j :: 0 <= j < |ls| ==> ls[j].sentence != sentence
    ensures OfSentence(ls, sentence) == []
    decreases |ls|
  {
    if ls != [] {
      var init := ls[..|ls| - 1];
      assert forall j :: 0 <= j < |init| ==> init[j] == ls[j];
      OfSentenceAbsent(init, sentence);
    }
  }

  lemma {:induction false} OfSentenceOfPrefix(ls: seq<Label>, i: nat, sentence: nat)
    requires i <= |ls|
    requires forall j :: i <= j < |ls| ==> ls[j].sentence != sentence
    ensures OfSentence(ls, sentence) == OfSentence(ls[..i], sentence)
    decreases |ls|
  {
    if i == |ls| {
      assert ls[..i] == ls;
    } else {
      var init := ls[..|ls| - 1];
      assert init[..i] == ls[..i];
      assert forall j :: i <= j < |init| ==> init[j] == ls[j];
      OfSentenceOfPrefix(init, i, sentence);
    }
  }

  lemma OfSentenceExtend(ls: seq<Label>, i: nat, sentence: nat)
    requires i < |ls|
    ensures OfSentence(ls[..i + 1], sentence)
         == OfSentence(ls[..i], sentence) + (if ls[i].sentence == sentence then [ls[i]] else [])
  {
    assert ls[..i + 1][..i] == ls[..i];
  }

  /**
   * What keeps the groups aligned with the `n` inputs: at least one label
   * when there are inputs, and a label for every input after the first.
   */
  predicate CoversRows(ls: seq<Label>, n: nat) {
    && (n > 0 ==> ls != [])
    && forall k :: 1 <= k < n ==> HasSentence(ls, k)
  }

  /** Under `CoversRows`, consecutive labels never skip an input. */
  lemma NoSkippedSentence(all: seq<Label>, n: nat, i: nat)
    requires SentenceSorted(all) && SentencesBelow(all, n) && CoversRows(all, n)
    requires 1 <= i < |all|
    ensures all[i - 1].sentence <= all[i].sentence <= all[i - 1].sentence + 1
  {
    var s := all[i - 1].sentence;
    if s + 1 < n {
      assert HasSentence(all, s + 1);
      var j :| 0 <= j < |all| && all[j].sentence == s + 1;
      assert i <= j;
    }
  }

  /** Under `CoversRows`, the last label belongs to the last input. */
  lemma LastSentenceIsLastInput(all: seq<Label>, n: nat)
    requires SentenceSorted(all) && SentencesBelow(all, n) && CoversRows(all, n)
    requires all != []
    ensures all[|all| - 1].sentence == n - 1
  {
    if n >= 2 {
      assert HasSentence(all, n - 1);
      var j :| 0 <= j < |all| && all[j].sentence == n - 1;
      assert j <= |all| - 1;
    }
  }

  /** Under `CoversRows`, the first label belongs to input 0 or input 1. */
  lemma FirstSentenceAtMostOne(all: seq<Label>, n: nat)
    requires SentenceSorted(all) && SentencesBelow(all, n) && CoversRows(all, n)
    requires all != []
    ensures all[0].sentence <= 1
  {
    if n >= 2 {
      assert HasSentence(all, 1);
      var j :| 0 <= j < |all| && all[j].sentence == 1;
      assert 0 <= j;
    }
  }

  /** The rows loop state that `GroupFromByRow` carries from label to label. */
  predicate AlignedState(all: seq<Label>, i: nat, labels: seq<seq<Label>>, current: seq<Label>)
    requires 1 <= i <= |all|
  {
    && |labels| == all[i - 1].sentence
    && current == OfSentence(all[..i], all[i - 1].sentence)
    && forall g :: 0 <= g < |labels| ==> labels[g] == OfSentence(all, g)
  }

  lemma AlignedFinish(all: seq<Label>, n: nat, labels: seq<seq<Label>>, current: seq<Label>)
    requires SentenceSorted(all) && SentencesBelow(all, n) && CoversRows(all, n)
    requires all != [] && AlignedState(all, |all|, labels, current)
    ensures GroupFrom([], labels, current) == ByRow(all, n)
  {
    var i := |all|;
    var s := all[i - 1].sentence;
    OfSentenceExtend(all, i - 1, s);
    assert all[..i] == all;
    LastSentenceIsLastInput(all, n);
    var result := labels + [current];
    assert |result| == n;
    forall g | 0 <= g < n ensures result[g] == OfSentence(all, g) {
      if g == s {
        assert result[g] == current;
      } else {
        assert result[g] == labels[g];
      }
    }
  }

  lemma AlignedJoin(all: seq<Label>, i: nat, labels: seq<seq<Label>>, current: seq<Label>)
    requires SentenceSorted(all)
    requires 1 <= i < |all| && AlignedState(all, i, labels, current)
    requires all[i].sentence <= |labels|
    ensures AlignedState(all, i + 1, labels, current + [all[i]])
  {
    assert all[i - 1].sentence <= all[i].sentence;
    OfSentenceExtend(all, i, all[i].sentence);
  }

  lemma AlignedFlush(all: seq<Label>, n: nat, i: nat, labels: seq<seq<Label>>, current: seq<Label>)
    requires SentenceSorted(all) && SentencesBelow(all, n) && CoversRows(all, n)
    requires 1 <= i < |all| && AlignedState(all, i, labels, current)
    requires all[i].sentence > |labels|
    ensures AlignedState(all, i + 1, labels + [current], [all[i]])
  {
    var s := all[i - 1].sentence;
    NoSkippedSentence(all, n, i);
    assert all[i].sentence == s + 1;
    assert forall j :: i <= j < |all| ==> all[j].sentence != s by {
      assert forall j :: i <= j < |all| ==> all[i].sentence <= all[j].sentence;
    }
    OfSentenceOfPrefix(all, i, s);
    assert forall j :: 0 <= j < i ==> all[..i][j].sentence != s + 1 by {
      assert forall j :: 0 <= j < i ==> all[j].sentence <= all[i - 1].sentence;
    }
    OfSentenceAbsent(all[..i], s + 1);
    OfSentenceExtend(all, i, s + 1);
    assert [] + [all[i]] == [all[i]];
    var labels' := labels + [current];
    assert forall g :: 0 <= g < |labels'| ==> labels'[g] == OfSentence(all, g) by {
      assert labels'[s] == current;
    }
  }

  lemma {:induction false} GroupFromByRow(all: seq<Label>, n: nat, i: nat, labels: seq<seq<Label>>, current: seq<Label>)
    requires SentenceSorted(all) && SentencesBelow(all, n) && CoversRows(all, n)
    requires 1 <= i <= |all| && AlignedState(all, i, labels, current)
    ensures GroupFrom(all[i..], labels, current) == ByRow(all, n)
    decreases |all| - i
  {
    if i == |all| {
      assert all[i..] == [];
      AlignedFinish(all, n, labels, current);
    } else {
      var l := all[i];
      assert all[i..][0] == l && all[i..][1..] == all[i + 1..];
      if l.sentence > |labels| {
        AlignedFlush(all, n, i, labels, current);
        assert GroupFrom(all[i..], labels, current) == GroupFrom(all[i + 1..], labels + [current], [l]);
        GroupFromByRow(all, n, i + 1, labels + [current], [l]);
      } else {
        AlignedJoin(all, i, labels, current);
        assert GroupFrom(all[i..], labels, current) == GroupFrom(all[i + 1..], labels, current + [l]);
        GroupFromByRow(all, n, i + 1, labels, current + [l]);
      }
    }
  }

  lemma GroupMatchesRowsIfCovered(ls: seq<Label>, n: nat)
    requires SentenceSorted(ls) && SentencesBelow(ls, n) && CoversRows(ls, n)
    ensures Group(ls) == ByRow(ls, n)
  {
    if ls != [] {
      var s0 := ls[0].sentence;
      assert ls == [ls[0]] + ls[1..];
      OfSentenceExtend(ls, 0, s0);
      assert ls[..0] == [];
      FirstSentenceAtMostOne(ls, n);
      var none: seq<seq<Label>> := [];
      assert [] + [ls[0]] == [ls[0]] && none + [[]] == [[]];
      if s0 == 0 {
        assert Group(ls) == GroupFrom(ls[1..], [], [ls[0]]);
        GroupFromByRow(ls, n, 1, [], [ls[0]]);
      } else {
        OfSentenceAbsent(ls, 0);
        assert Group(ls) == GroupFrom(ls[1..], [[]], [ls[0]]);
        GroupFromByRow(ls, n, 1, [[]], [ls[0]]);
      }
    }
  }

  lemma GroupMismatchIfNotCovered(ls: seq<Label>, n: nat)
    requires SentenceSorted(ls) && SentencesBelow(ls, n) && !CoversRows(ls, n)
    ensures Group(ls) != ByRow(ls, n)
  {
    GroupShape(ls);
    if n > 0 && ls == [] {
      assert |ByRow(ls, n)| != |Group(ls)|;
    } else {
      var k :| 1 <= k < n && !HasSentence(ls, k);
      OfSentenceAbsent(ls, k);
      if |Group(ls)| == n {
        assert Group(ls)[k] != [] && ByRow(ls, n)[k] == [];
      }
    }
  }

  /**
   * For labels of `n` inputs in sentence order, the loop returns one group per
   * input, group i holding input i's labels, if and only if there is some
   * selection at all (when n > 0) and every input after the first has one.
   */
  lemma GroupMatchesRowsIff(ls: seq<Label>, n: nat)
    requires SentenceSorted(ls) && SentencesBelow(ls, n)
    ensures Group(ls) == ByRow(ls, n) <==> CoversRows(ls, n)
  {
    if CoversRows(ls, n) {
      GroupMatchesRowsIfCovered(ls, n);
    } else {
      GroupMismatchIfNotCovered(ls, n);
    }
  }

  /** The documented promise in the dense case: every input has a selected label. */
  lemma GroupDense(ls: seq<Label>, n: nat)
    requires SentenceSorted(ls) && SentencesBelow(ls, n)
    requires forall k :: 0 <= k < n ==> HasSentence(ls, k)
    ensures |Group(ls)| == n
    ensures forall i :: 0 <= i < n ==> Group(ls)[i] == OfSentence(ls, i)
  {
    if n > 0 {
      assert HasSentence(ls, 0);
    }
    GroupMatchesRowsIfCovered(ls, n);
  }

  /**
   * One label in input 0 and one in input 2, of three inputs: two groups, not
   * three. Input 1 gets no group, so input 2's label lands in group 1.
   */
  lemma SparseRowsShift(a: Label, b: Label)
    requires a.sentence == 0 && b.sentence == 2
    ensures Group([a, b]) == [[a], [b]]
    ensures Group([a, b]) != ByRow([a, b], 3)
  {
    var none: seq<seq<Label>> := [];
    assert [a, b][1..] == [b] && [] + [a] == [a] && none + [[a]] == [[a]];
    assert Group([a, b]) == GroupFrom([b], [], [a]);
    assert GroupFrom([b], [], [a]) == GroupFrom([], [[a]], [b]);
    assert |Group([a, b])| != |ByRow([a, b], 3)|;
  }

  /** A trailing input with no selection gets no group. */
  lemma TrailingRowDropped(a: Label)
    requires a.sentence == 0
    ensures Group([a]) == [[a]]
    ensures |Group([a])| < |ByRow([a], 2)|
  {
    assert [] + [a] == [a] && [a][1..] == [];
    assert Group([a]) == GroupFrom([], [], [a]);
  }

  /** After a skipped input, the labels of one input are split over two groups. */
  lemma SkippedRowSplitsNext(a: Label, b: Label, c: Label)
    requires a.sentence == 0 && b.sentence == 2 && c.sentence == 2
    ensures Group([a, b, c]) == [[a], [b], [c]]
  {
    var none: seq<seq<Label>> := [];
    assert [a, b, c][1..] == [b, c] && [b, c][1..] == [c] && [c][1..] == [];
    assert [] + [a] == [a] && none + [[a]] == [[a]] && [[a]] + [[b]] == [[a], [b]];
    assert Group([a, b, c]) == GroupFrom([b, c], [], [a]);
    assert GroupFrom([b, c], [], [a]) == GroupFrom([c], [[a]], [b]);
    assert GroupFrom([c], [[a]], [b]) == GroupFrom([], [[a], [b]], [c]);
  }
}
