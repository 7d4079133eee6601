/**
 * The edit loop of `formatTypeScript` in scripts/sync-agent-host-protocol.ts: the formatter's edits
 * all refer to the original text, and are applied from the last to the first.
 */
module TextEdits {
  import opened Prelude

  datatype Edit = Edit(start: nat, length: nat, newText: string)

  // In order, not overlapping, and within the text.
  ghost predicate Ordered(edits: seq<Edit>, size: nat) {
    && (forall i :: 0 <= i < |edits| ==> edits[i].start + edits[i].length <= size)
    && (forall i, j :: 0 <= i < j < |edits| ==> edits[i].start + edits[i].length <= edits[j].start)
  }

  // All edits at once, from left to right, each at its offset in the original text.
  function Splice(text: string, edits: seq<Edit>, from: nat): string
    requires from <= |text| && Ordered(edits, |text|)
    requires edits != [] ==> from <= edits[0].start
    decreases |edits|
  {
    if edits == [] then text[from..]
    else
      var e := edits[0];
      text[from..e.start] + (e.newText + Splice(text, edits[1..], e.start + e.length))
  }

  method ApplyEdits(original: string, edits: seq<Edit>) returns (content: string)
    requires Ordered(edits, |original|)
    ensures content == Splice(original, edits, 0)
  {
    hide Ordered, Splice;
    content := original;
    var i := |edits|;
    NoneApplied(original, edits);
    while i > 0
      invariant 0 <= i <= |edits|
      invariant Applied(original, edits, i, content)
    {
      i := i - 1;
      var edit := edits[i];
      PutEdit(original, edits, i, content);
      content := content[..edit.start] + edit.newText + content[edit.start + edit.length..];
    }
    AllApplied(original, edits, content);
  }

  // Everything before edit `i` is still as in the original when edits `i` and later are applied.
  function Bound(text: string, edits: seq<Edit>, i: nat): (b: nat)
    requires i <= |edits| && Ordered(edits, |text|)
    ensures b <= |text|
  {
    if i < |edits| then edits[i].start else |text|
  }

  // The edits from `i` on are applied, and what is before them is as in the original.
  ghost predicate Applied(text: string, edits: seq<Edit>, i: nat, content: string)
    requires i <= |edits| && Ordered(edits, |text|)
  {
    var b := Bound(text, edits, i);
    Ordered(edits[i..], |text|) && content == text[..b] + Splice(text, edits[i..], b)
  }

  lemma FirstAndRest(text: string, edits: seq<Edit>, from: nat)
    requires edits != [] && from <= |text| && Ordered(edits, |text|) && from <= edits[0].start
    ensures var e := edits[0]; var end := e.start + e.length;
      && end <= |text| && Ordered(edits[1..], |text|) && (|edits| > 1 ==> end <= edits[1].start)
      && Splice(text, edits, from) == text[from..e.start] + (e.newText + Splice(text, edits[1..], end))
  {
  }

  // A splice may start anywhere before its first edit, the text in between being copied.
  lemma SpliceFrom(text: string, edits: seq<Edit>, from: nat)
    requires edits != [] && Ordered(edits, |text|) && from <= edits[0].start
    ensures edits[0].start <= |text|
    ensures Splice(text, edits, from) == text[from..edits[0].start] + Splice(text, edits, edits[0].start)
  {
    assert edits[0].start <= |text|;
    hide Ordered, Splice;
    var e := edits[0];
    FirstAndRest(text, edits, from);
    FirstAndRest(text, edits, e.start);
    var rest := e.newText + Splice(text, edits[1..], e.start + e.length);
    assert text[e.start..e.start] + rest == rest;
  }

  lemma TailIsOrdered(edits: seq<Edit>, i: nat, size: nat)
    requires i < |edits| && Ordered(edits, size)
    ensures Ordered(edits[i..], size) && Ordered(edits[i + 1..], size)
    ensures edits[i].start + edits[i].length <= size
    ensures i + 1 < |edits| ==> edits[i].start + edits[i].length <= edits[i + 1].start <= size
  {
  }

  lemma TailSplice(text: string, edits: seq<Edit>, i: nat)
    requires i < |edits| && Ordered(edits, |text|)
    ensures var end, b := edits[i].start + edits[i].length, Bound(text, edits, i + 1);
      end <= b && text[..b] + Splice(text, edits[i + 1..], b) == text[..end] + Splice(text, edits[i + 1..], end)
  {
    hide Ordered, Splice;
    TailIsOrdered(edits, i, |text|);
    SpliceFromBound(text, edits[i + 1..], edits[i].start + edits[i].length);
  }

  // A splice may start anywhere up to its first edit, or up to the end of the text without one.
  lemma SpliceFromBound(text: string, tail: seq<Edit>, end: nat)
    requires Ordered(tail, |text|) && end <= |text| && (tail != [] ==> end <= tail[0].start <= |text|)
    ensures var b := if tail == [] then |text| else tail[0].start;
      text[..b] + Splice(text, tail, b) == text[..end] + Splice(text, tail, end)
  {
    hide Ordered, Splice;
    var b := if tail == [] then |text| else tail[0].start;
    if tail == [] {
      SpliceOfNone(text, end);
      SpliceOfNone(text, b);
      assert text[b..] == [] && text[end..b] == text[end..];
    } else {
      SpliceFrom(text, tail, end);
    }
    MoveOver(text, end, b, Splice(text, tail, end), Splice(text, tail, b));
  }

  lemma SpliceOfNone(text: string, from: nat)
    requires from <= |text|
    ensures Splice(text, [], from) == text[from..]
  {
  }

  lemma MoveOver(text: string, end: nat, b: nat, whole: string, rest: string)
    requires end <= b <= |text| && whole == text[end..b] + rest
    ensures text[..b] + rest == text[..end] + whole
  {
    assert text[..b] == text[..end] + text[end..b];
  }

  lemma NoneApplied(text: string, edits: seq<Edit>)
    requires Ordered(edits, |text|)
    ensures Applied(text, edits, |edits|, text)
  {
    assert edits[|edits|..] == [];
    SpliceOfNone(text, |text|);
  }

  // One turn of the loop.
  lemma PutEdit(text: string, edits: seq<Edit>, i: nat, content: string)
    requires i < |edits| && Ordered(edits, |text|) && Applied(text, edits, i + 1, content)
    ensures var edit := edits[i]; var end := edit.start + edit.length;
      && end <= |content|
      && Applied(text, edits, i, content[..edit.start] + edit.newText + content[end..])
  {
    hide Ordered, Splice;
    var edit := edits[i];
    var end := edit.start + edit.length;
    TailIsOrdered(edits, i, |text|);
    TailSplice(text, edits, i);
    var tail := Splice(text, edits[i + 1..], end);
    CutAt(text, end, edit.start, tail);
    assert edits[i..][0] == edit && edits[i..][1..] == edits[i + 1..];
    FirstAndRest(text, edits[i..], edit.start);
    assert text[edit.start..edit.start] + (edit.newText + tail) == edit.newText + tail;
    MoveOver(text, edit.start, edit.start, edit.newText + tail, edit.newText + tail);
    Regroup(text[..edit.start], edit.newText, tail);
  }

  lemma CutAt(text: string, end: nat, start: nat, tail: string)
    requires start <= end <= |text|
    ensures (text[..end] + tail)[..start] == text[..start] && (text[..end] + tail)[end..] == tail
  {
  }

  lemma AllApplied(text: string, edits: seq<Edit>, content: string)
    requires Ordered(edits, |text|) && Applied(text, edits, 0, content)
    ensures content == Splice(text, edits, 0)
  {
    hide Ordered, Splice;
    assert edits[0..] == edits;
    if edits == [] {
      SpliceOfNone(text, 0);
      SpliceOfNone(text, |text|);
      assert text[..|text|] + text[|text|..] == text[0..];
    } else {
      TailIsOrdered(edits, 0, |text|);
      SpliceFrom(text, edits, 0);
      assert text[0..edits[0].start] == text[..edits[0].start];
    }
  }

  // What the edits add and take away.
  function Growth(edits: seq<Edit>): int {
    if edits == [] then 0 else |edits[0].newText| - edits[0].length + Growth(edits[1..])
  }

  lemma {:induction false} SpliceLength(text: string, edits: seq<Edit>, from: nat)
    requires from <= |text| && Ordered(edits, |text|) && (edits != [] ==> from <= edits[0].start)
    ensures |Splice(text, edits, from)| == |text| - from + Growth(edits)
    decreases |edits|
  {
    if edits == [] {
    } else {
      SpliceLength(text, edits[1..], edits[0].start + edits[0].length);
    }
  }

  // Where position `at` of the original ends up, if no edit covers it.
  function Shifted(edits: seq<Edit>, at: nat): int {
    if edits == [] || at < edits[0].start then at
    else Shifted(edits[1..], at) + |edits[0].newText| - edits[0].length
  }

  lemma InTail(a: string, b: string, c: string, k: nat)
    requires k < |c|
    ensures |a| + |b| + k < |a + (b + c)| && (a + (b + c))[|a| + |b| + k] == c[k]
  {
  }

  lemma InHead(text: string, from: nat, start: nat, rest: string, at: nat)
    requires from <= at < start <= |text|
    ensures (text[from..start] + rest)[at - from] == text[at]
  {
  }

  // Text no edit covers is copied, moved by the growth of the edits before it.
  lemma {:induction false} UncoveredTextIsKept(text: string, edits: seq<Edit>, from: nat, at: nat)
    requires from <= at < |text| && Ordered(edits, |text|) && (edits != [] ==> from <= edits[0].start)
    requires forall i :: 0 <= i < |edits| ==> at < edits[i].start || edits[i].start + edits[i].length <= at
    ensures 0 <= Shifted(edits, at) - from < |Splice(text, edits, from)|
    ensures Splice(text, edits, from)[Shifted(edits, at) - from] == text[at]
    decreases |edits|
  {
    hide Splice, Ordered;
    if edits == [] {
      SpliceOfNone(text, from);
    } else {
      FirstAndRest(text, edits, from);
      TailIsOrdered(edits, 0, |text|);
      var e := edits[0];
      var end := e.start + e.length;
      var tail := Splice(text, edits[1..], end);
      if e.start <= at {
        assert forall i :: 0 <= i < |edits[1..]| ==> edits[1..][i] == edits[i + 1];
        UncoveredTextIsKept(text, edits[1..], end, at);
        InTail(text[from..e.start], e.newText, tail, Shifted(edits[1..], at) - end);
      } else {
        InHead(text, from, e.start, e.newText + tail, at);
      }
    }
  }

  predicate Occurs(t: string, s: string, at: int) {
    0 <= at && at + |t| <= |s| && s[at..at + |t|] == t
  }

  lemma GrowthOfFirst(edits: seq<Edit>, k: nat)
    requires 0 < k <= |edits|
    ensures Growth(edits[..k]) == |edits[0].newText| - edits[0].length + Growth(edits[1..][..k - 1])
  {
    assert edits[..k][1..] == edits[1..][..k - 1];
  }

  // Each edit's text appears where its span starts, moved by the growth of the edits before it.
  lemma {:induction false} NewTextIsInPlace(text: string, edits: seq<Edit>, from: nat, k: nat)
    requires from <= |text| && k < |edits| && Ordered(edits, |text|) && from <= edits[0].start
    ensures Occurs(edits[k].newText, Splice(text, edits, from), edits[k].start + Growth(edits[..k]) - from)
    decreases |edits|
  {
    hide Occurs, Splice, Ordered, Growth;
    FirstAndRest(text, edits, from);
    var e := edits[0];
    var end := e.start + e.length;
    var tail := Splice(text, edits[1..], end);
    if k > 0 {
      NewTextIsInPlace(text, edits[1..], end, k - 1);
      GrowthOfFirst(edits, k);
      var t, at := edits[k].newText, edits[k].start + Growth(edits[1..][..k - 1]) - end;
      OccursLater(t, e.newText, tail, at);
      OccursLater(t, text[from..e.start], e.newText + tail, |e.newText| + at);
    } else {
      NoGrowth(edits[..0]);
      OccursBetween(e.newText, text[from..e.start], tail);
    }
  }

  lemma NoGrowth(edits: seq<Edit>)
    requires edits == []
    ensures Growth(edits) == 0
  {
  }

  lemma OccursLater(t: string, head: string, tail: string, at: int)
    requires Occurs(t, tail, at)
    ensures Occurs(t, head + tail, |head| + at)
  {
  }

  lemma OccursBetween(t: string, head: string, tail: string)
    ensures Occurs(t, head + (t + tail), |head|)
  {
  }
}
