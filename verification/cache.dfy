/**
 * The download cache of cli/src/download_cache.rs over the write-through cell of cli/src/state.rs:
 * a list of names, most recently used first, that must account for the directories on disk.
 */
module DownloadCache {
  import opened Prelude

  type Name = string

  const KEEP_LRU: nat := 5
  const STAGING_SUFFIX := ".staging"
  const RENAME_ATTEMPTS: nat := 20

  function Staging(name: Name): Name {
    name + STAGING_SUFFIX
  }

  predicate IsStaging(name: Name) {
    |name| >= |STAGING_SUFFIX| && name[|name| - |STAGING_SUFFIX|..] == STAGING_SUFFIX
  }

  // ---------------------------------------------------------------------------------------------
  // The list operations

  // The position of the first `name`, or the length.
  function Position(l: seq<Name>, name: Name): (i: nat)
    ensures i <= |l| && (i < |l| ==> l[i] == name) && forall j :: 0 <= j < i ==> l[j] != name
  {
    if l == [] || l[0] == name then 0 else 1 + Position(l[1..], name)
  }

  function RemoveFirst(l: seq<Name>, name: Name): seq<Name> {
    var i := Position(l, name);
    if i == |l| then l else l[..i] + l[i + 1..]
  }

  function Without(l: seq<Name>, name: Name): seq<Name> {
    if l == [] then [] else if l[0] == name then Without(l[1..], name) else [l[0]] + Without(l[1..], name)
  }

  // `touch`, when the overflowing entry's directory is gone or can be removed (`evict`), or not.
  function Touched(l: seq<Name>, name: Name, evict: bool): (r: seq<Name>)
    ensures r != [] && r[0] == name
  {
    var moved := [name] + RemoveFirst(l, name);
    if |moved| > KEEP_LRU && evict then moved[..|moved| - 1] else moved
  }

  lemma {:induction false} WithoutKeeps(l: seq<Name>, name: Name)
    ensures forall n :: n in Without(l, name) <==> n in l && n != name
    ensures NoDup(l) ==> NoDup(Without(l, name))
    ensures |Without(l, name)| <= |l|
    ensures name !in l ==> Without(l, name) == l
  {
    if l == [] {
    } else {
      WithoutKeeps(l[1..], name);
      assert l == [l[0]] + l[1..];
      if NoDup(l) {
        var rest := Without(l[1..], name);
        forall j | 0 <= j < |rest| ensures rest[j] != l[0] { assert rest[j] in l[1..]; }
      }
    }
  }

  lemma NoDupTail(l: seq<Name>)
    requires NoDup(l) && l != []
    ensures NoDup(l[1..]) && l[0] !in l[1..]
  {
    assert forall i :: 0 <= i < |l[1..]| ==> l[1..][i] == l[i + 1];
  }

  lemma RemoveFirstStep(l: seq<Name>, name: Name)
    requires l != []
    ensures RemoveFirst(l, name) == if l[0] == name then l[1..] else [l[0]] + RemoveFirst(l[1..], name)
  {
    assert Position(l, name) == if l[0] == name then 0 else 1 + Position(l[1..], name);
    hide Position;
    if l[0] != name {
      var tail, i := l[1..], Position(l[1..], name);
      if i < |tail| { assert l[..i + 1] + l[i + 2..] == [l[0]] + (tail[..i] + tail[i + 1..]); }
    }
  }

  lemma {:induction false} RemoveFirstIsWithout(l: seq<Name>, name: Name)
    requires NoDup(l)
    ensures RemoveFirst(l, name) == Without(l, name)
  {
    if l == [] {
    } else {
      NoDupTail(l);
      RemoveFirstStep(l, name);
      hide RemoveFirst, NoDup;
      if l[0] == name { WithoutKeeps(l[1..], name); } else { RemoveFirstIsWithout(l[1..], name); }
    }
  }

  // ---------------------------------------------------------------------------------------------
  // Usage history

  function Reverse(h: seq<Name>): seq<Name> {
    if h == [] then [] else [h[|h| - 1]] + Reverse(h[..|h| - 1])
  }

  function Distinct(l: seq<Name>): seq<Name> {
    if l == [] then [] else [l[0]] + Without(Distinct(l[1..]), l[0])
  }

  // The list after touching the names of `h` in order, from an empty list, evictions succeeding.
  function AfterTouches(h: seq<Name>): seq<Name> {
    if h == [] then [] else Touched(AfterTouches(h[..|h| - 1]), h[|h| - 1], true)
  }

  function Take(l: seq<Name>, n: nat): seq<Name> {
    if |l| <= n then l else l[..n]
  }

  lemma {:induction false} DistinctIsNoDup(l: seq<Name>)
    ensures NoDup(Distinct(l)) && forall n :: n in Distinct(l) <==> n in l
  {
    if l == [] {
    } else {
      DistinctIsNoDup(l[1..]);
      WithoutKeeps(Distinct(l[1..]), l[0]);
      assert l == [l[0]] + l[1..];
    }
  }

  lemma TakeCons(x: Name, l: seq<Name>, n: nat)
    requires n > 0
    ensures Take([x] + l, n) == [x] + Take(l, n - 1)
  {
  }

  lemma WithoutStep(l: seq<Name>, name: Name)
    requires l != []
    ensures Without(l, name) == if l[0] == name then Without(l[1..], name) else [l[0]] + Without(l[1..], name)
  {
  }

  // Dropping a name and keeping the first n - 1 of the rest, when it is among the first n, or not.
  lemma {:induction false} TakeWithout(l: seq<Name>, name: Name, n: nat)
    requires NoDup(l) && n > 0
    ensures Take(Without(l, name), n - 1) == Take(Without(Take(l, n), name), n - 1)
  {
    if |l| <= n {
    } else {
      var first := l[..n];
      NoDupTail(l);
      WithoutStep(l, name);
      WithoutStep(first, name);
      assert first[0] == l[0] && first[1..] == l[1..][..n - 1];
      hide Without, NoDup;
      if l[0] == name {
        WithoutKeeps(l[1..], name);
        WithoutKeeps(first[1..], name);
      } else if n > 1 {
        TakeWithout(l[1..], name, n - 1);
        TakeCons(l[0], Without(l[1..], name), n - 1);
        TakeCons(l[0], Without(first[1..], name), n - 1);
      }
    }
  }

  lemma {:induction false} WithoutLength(l: seq<Name>, name: Name)
    requires NoDup(l)
    ensures |l| - 1 <= |Without(l, name)| <= |l|
  {
    if l == [] {
    } else {
      if l[0] == name { WithoutKeeps(l[1..], name); } else { WithoutLength(l[1..], name); }
    }
  }

  lemma TouchedIs(l: seq<Name>, name: Name, evict: bool)
    requires NoDup(l)
    ensures var moved := [name] + Without(l, name);
      Touched(l, name, evict) == if |moved| > KEEP_LRU && evict then moved[..|moved| - 1] else moved
  {
    RemoveFirstIsWithout(l, name);
    hide RemoveFirst, Without, NoDup;
  }

  lemma TakeNoDup(l: seq<Name>, n: nat)
    requires NoDup(l)
    ensures NoDup(Take(l, n)) && |Take(l, n)| <= n
  {
  }

  lemma TouchedTake(recent: seq<Name>, name: Name)
    requires NoDup(recent)
    ensures Touched(Take(recent, KEEP_LRU), name, true) == Take([name] + Without(recent, name), KEEP_LRU)
  {
    var l := Take(recent, KEEP_LRU);
    TakeNoDup(recent, KEEP_LRU);
    hide NoDup, Without, Touched;
    TouchedIs(l, name, true);
    WithoutLength(l, name);
    TakeWithout(recent, name, KEEP_LRU);
    TakeCons(name, Without(recent, name), KEEP_LRU);
    TakeCons(name, Without(l, name), KEEP_LRU);
  }

  lemma RecentStep(h: seq<Name>)
    requires h != []
    ensures var front, name := h[..|h| - 1], h[|h| - 1];
      && Distinct(Reverse(h)) == [name] + Without(Distinct(Reverse(front)), name)
      && AfterTouches(h) == Touched(AfterTouches(front), name, true)
  {
    hide Touched, Without;
    assert Reverse(h)[1..] == Reverse(h[..|h| - 1]);
  }

  // The list is the last five distinct names used, most recent first.
  lemma {:induction false} ListIsRecentHistory(h: seq<Name>)
    ensures AfterTouches(h) == Take(Distinct(Reverse(h)), 5)
  {
    if h == [] {
    } else {
      hide *;
      var front, name := h[..|h| - 1], h[|h| - 1];
      ListIsRecentHistory(front);
      RecentStep(h);
      DistinctIsNoDup(Reverse(front));
      TouchedTake(Distinct(Reverse(front)), name);
    }
  }

  // ---------------------------------------------------------------------------------------------
  // Any mix of touches, failed evictions and deletions

  datatype Event = Used(name: Name) | Dropped(name: Name)

  function Elems(l: seq<Name>): set<Name> {
    set n | n in l
  }

  // The other names used since the last use of `name`, and not dropped again.
  function LiveSince(h: seq<Event>, name: Name): set<Name> {
    if h == [] then {}
    else
      var front, last := h[..|h| - 1], h[|h| - 1];
      if last == Used(name) then {}
      else if last.Used? then LiveSince(front, name) + {last.name}
      else LiveSince(front, name) - {last.name}
  }

  // `name` was used, not dropped since, and at no time since then had five others been used and not
  // dropped.
  predicate Kept(h: seq<Event>, name: Name) {
    h != [] &&
    (var front, last := h[..|h| - 1], h[|h| - 1];
     if last.name == name then last.Used? else Kept(front, name) && |LiveSince(h, name)| < KEEP_LRU)
  }

  // All other names used since the last use of `name`.
  function OthersSince(h: seq<Event>, name: Name): set<Name> {
    if h == [] then {}
    else
      var front, last := h[..|h| - 1], h[|h| - 1];
      if last == Used(name) then {} else OthersSince(front, name) + if last.Used? then {last.name} else {}
  }

  // The last thing that happened to `name` was a use.
  predicate Alive(h: seq<Event>, name: Name) {
    h != [] &&
    (var front, last := h[..|h| - 1], h[|h| - 1]; if last.name == name then last.Used? else Alive(front, name))
  }

  lemma LiveSnoc(h: seq<Event>, last: Event, name: Name)
    ensures LiveSince(h + [last], name) ==
      if last == Used(name) then {}
      else if last.Used? then LiveSince(h, name) + {last.name}
      else LiveSince(h, name) - {last.name}
  {
    assert (h + [last])[..|h|] == h;
  }

  lemma KeptSnoc(h: seq<Event>, last: Event, name: Name)
    ensures Kept(h + [last], name) ==
      if last.name == name then last.Used? else Kept(h, name) && |LiveSince(h + [last], name)| < KEEP_LRU
  {
    hide LiveSince;
    assert (h + [last])[..|h|] == h;
  }

  lemma OthersSnoc(h: seq<Event>, last: Event, name: Name)
    ensures OthersSince(h + [last], name) ==
      if last == Used(name) then {} else OthersSince(h, name) + if last.Used? then {last.name} else {}
    ensures Alive(h + [last], name) == if last.name == name then last.Used? else Alive(h, name)
  {
    assert (h + [last])[..|h|] == h;
  }

  lemma HistorySnoc(h: seq<Event>, last: Event, name: Name)
    ensures var h' := h + [last];
      && LiveSince(h', name) ==
           (if last == Used(name) then {}
            else if last.Used? then LiveSince(h, name) + {last.name}
            else LiveSince(h, name) - {last.name})
      && Kept(h', name) ==
           (if last.name == name then last.Used? else Kept(h, name) && |LiveSince(h', name)| < KEEP_LRU)
      && OthersSince(h', name) ==
           (if last == Used(name) then {} else OthersSince(h, name) + if last.Used? then {last.name} else {})
      && Alive(h', name) == (if last.name == name then last.Used? else Alive(h, name))
  {
    hide *;
    LiveSnoc(h, last, name);
    KeptSnoc(h, last, name);
    OthersSnoc(h, last, name);
  }

  // The list has no duplicates; what precedes a name is exactly what was used since and not dropped;
  // and a name is listed as long as it is to be kept.
  ghost predicate Accounted(l: seq<Name>, h: seq<Event>) {
    && NoDup(l)
    && (forall k :: 0 <= k < |l| ==> LiveSince(h, l[k]) == Elems(l[..k]))
    && (forall name :: Kept(h, name) ==> name in l)
  }

  // When evictions succeed, it is listed no longer than that.
  ghost predicate Exact(l: seq<Name>, h: seq<Event>) {
    Accounted(l, h) && |l| <= KEEP_LRU && forall name :: name in l ==> Kept(h, name)
  }

  lemma {:induction false} ElemsCount(l: seq<Name>)
    requires NoDup(l)
    ensures |Elems(l)| == |l|
  {
    if l == [] {
      assert Elems(l) == {};
    } else {
      NoDupTail(l);
      ElemsCount(l[1..]);
      assert l == [l[0]] + l[1..];
      assert Elems(l) == {l[0]} + Elems(l[1..]);
    }
  }

  lemma SubsetSize<T>(a: set<T>, b: set<T>)
    requires a <= b
    ensures |a| <= |b|
  {
    assert b == a + (b - a);
  }

  // How many live names precede an entry, in the list and in the history.
  lemma PrefixCount(l: seq<Name>, h: seq<Event>, k: nat)
    requires Accounted(l, h) && k < |l|
    ensures |LiveSince(h, l[k])| == k
  {
    hide Kept, LiveSince;
    assert NoDup(l[..k]);
    ElemsCount(l[..k]);
  }

  lemma {:induction false} LiveAreOthers(h: seq<Event>, name: Name)
    ensures LiveSince(h, name) <= OthersSince(h, name)
  {
    if h == [] {
    } else {
      LiveAreOthers(h[..|h| - 1], name);
    }
  }

  // A listed name's index is at most the number of distinct other names used since its last use.
  lemma IndexIsBounded(l: seq<Name>, h: seq<Event>, k: nat)
    requires Accounted(l, h) && k < |l|
    ensures k == |LiveSince(h, l[k])| <= |OthersSince(h, l[k])|
  {
    PrefixCount(l, h, k);
    LiveAreOthers(h, l[k]);
    SubsetSize(LiveSince(h, l[k]), OthersSince(h, l[k]));
  }

  // Where an entry was before `name` was taken out, and what preceded it.
  lemma {:induction false} WithoutAt(l: seq<Name>, name: Name, j: nat) returns (a: nat)
    requires j < |Without(l, name)|
    ensures a < |l| && Without(l, name)[j] == l[a] != name
    ensures Elems(Without(l, name)[..j]) == Elems(l[..a]) - {name}
  {
    var tail := Without(l[1..], name);
    if l[0] == name {
      var b := WithoutAt(l[1..], name, j);
      a := 1 + b;
      assert l[..a] == [name] + l[1..][..b];
    } else if j == 0 {
      a := 0;
    } else {
      var b := WithoutAt(l[1..], name, j - 1);
      a := 1 + b;
      assert l[..a] == [l[0]] + l[1..][..b];
      assert Without(l, name)[..j] == [l[0]] + tail[..j - 1];
      assert Elems([l[0]] + tail[..j - 1]) == {l[0]} + Elems(tail[..j - 1]);
      assert Elems([l[0]] + l[1..][..b]) == {l[0]} + Elems(l[1..][..b]);
    }
  }

  // Moving a name to the front, before any eviction.
  lemma MoveKeepsAccount(l: seq<Name>, h: seq<Event>, name: Name)
    requires Accounted(l, h)
    ensures Accounted([name] + Without(l, name), h + [Used(name)])
  {
    hide LiveSince, Kept, OthersSince, Alive, Without;
    WithoutKeeps(l, name);
    var h', rest := h + [Used(name)], Without(l, name);
    var moved := [name] + rest;
    forall k | 0 <= k < |moved| ensures LiveSince(h', moved[k]) == Elems(moved[..k]) {
      HistorySnoc(h, Used(name), moved[k]);
      if k > 0 {
        var a := WithoutAt(l, name, k - 1);
        assert moved[..k] == [name] + rest[..k - 1];
        assert Elems([name] + rest[..k - 1]) == {name} + Elems(rest[..k - 1]);
      }
    }
    forall other | Kept(h', other) ensures other in moved { HistorySnoc(h, Used(name), other); }
  }

  // The entry that overflows is not to be kept.
  lemma EvictKeepsAccount(l: seq<Name>, h: seq<Event>, name: Name)
    requires Accounted(l, h + [Used(name)]) && |l| > KEEP_LRU && l[0] == name
    ensures Accounted(l[..|l| - 1], h + [Used(name)])
  {
    hide LiveSince, Kept, OthersSince, Alive, Elems;
    var h', n := h + [Used(name)], |l| - 1;
    PrefixCount(l, h', n);
    HistorySnoc(h, Used(name), l[n]);
    assert l[n] != name;
    forall k | 0 <= k < n ensures l[..n][..k] == l[..k] {}
    forall other | Kept(h', other) ensures other in l[..n] {
      var k :| 0 <= k < |l| && l[k] == other;
      assert k != n && l[..n][k] == other;
    }
  }

  lemma AccountedNoDup(l: seq<Name>, h: seq<Event>)
    requires Accounted(l, h)
    ensures NoDup(l)
  {
  }

  lemma TouchKeepsAccount(l: seq<Name>, h: seq<Event>, name: Name, evict: bool)
    requires Accounted(l, h)
    ensures Accounted(Touched(l, name, evict), h + [Used(name)])
  {
    hide *;
    AccountedNoDup(l, h);
    TouchedIs(l, name, evict);
    MoveKeepsAccount(l, h, name);
    var moved := [name] + Without(l, name);
    if |moved| > KEEP_LRU { EvictKeepsAccount(moved, h, name); }
  }

  // `delete` drops every occurrence.
  lemma DropKeepsAccount(l: seq<Name>, h: seq<Event>, name: Name)
    requires Accounted(l, h)
    ensures Accounted(Without(l, name), h + [Dropped(name)])
  {
    hide LiveSince, Kept, OthersSince, Alive, Without;
    WithoutKeeps(l, name);
    var h', rest := h + [Dropped(name)], Without(l, name);
    forall k | 0 <= k < |rest| ensures LiveSince(h', rest[k]) == Elems(rest[..k]) {
      HistorySnoc(h, Dropped(name), rest[k]);
      var a := WithoutAt(l, name, k);
    }
    forall other | Kept(h', other) ensures other in rest { HistorySnoc(h, Dropped(name), other); }
  }

  // ---------------------------------------------------------------------------------------------
  // Which names are listed, when evictions succeed

  // Names that stay within the first five keep being kept.
  lemma StillKept(l: seq<Name>, h: seq<Event>, last: Event, l': seq<Name>, name: Name)
    requires Accounted(l', h + [last]) && |l'| <= KEEP_LRU && name in l' && name != last.name && Kept(h, name)
    ensures Kept(h + [last], name)
  {
    hide LiveSince, Kept, OthersSince, Alive;
    var k :| 0 <= k < |l'| && l'[k] == name;
    PrefixCount(l', h + [last], k);
    HistorySnoc(h, last, name);
  }

  lemma TouchIsExact(l: seq<Name>, h: seq<Event>, name: Name)
    requires Exact(l, h)
    ensures Exact(Touched(l, name, true), h + [Used(name)])
  {
    RemoveFirstIsWithout(l, name);
    WithoutKeeps(l, name);
    TouchKeepsAccount(l, h, name, true);
    hide Accounted, Kept, RemoveFirst, Without;
    var l' := Touched(l, name, true);
    forall other | other in l' ensures Kept(h + [Used(name)], other) {
      if other == name {
        HistorySnoc(h, Used(name), name);
      } else {
        assert other in [name] + Without(l, name);
        StillKept(l, h, Used(name), l', other);
      }
    }
  }

  lemma DropIsExact(l: seq<Name>, h: seq<Event>, name: Name)
    requires Exact(l, h)
    ensures Exact(Without(l, name), h + [Dropped(name)])
  {
    WithoutKeeps(l, name);
    DropKeepsAccount(l, h, name);
    hide Accounted, Kept, Without;
    forall other | other in Without(l, name) ensures Kept(h + [Dropped(name)], other) {
      StillKept(l, h, Dropped(name), Without(l, name), other);
    }
  }

  // The list after the uses and deletions of `h`, from an empty list, evictions succeeding.
  function Replay(h: seq<Event>): seq<Name> {
    if h == [] then []
    else
      var front := Replay(h[..|h| - 1]);
      match h[|h| - 1]
      case Used(name) => Touched(front, name, true)
      case Dropped(name) => Without(front, name)
  }

  lemma {:induction false} ReplayIsExact(h: seq<Event>)
    ensures Exact(Replay(h), h)
  {
    if h == [] {
    } else {
      var n := |h| - 1;
      ReplayIsExact(h[..n]);
      assert h == h[..n] + [h[n]];
      hide Exact, Touched, Without;
      match h[n]
      case Used(name) => TouchIsExact(Replay(h[..n]), h[..n], name);
      case Dropped(name) => DropIsExact(Replay(h[..n]), h[..n], name);
    }
  }

  // A name is listed exactly when it was used, not deleted since, and at no time since then had
  // five other names been used and not deleted.
  lemma ListedIffKept(h: seq<Event>, name: Name)
    ensures name in Replay(h) <==> Kept(h, name)
  {
    ReplayIsExact(h);
  }

  lemma {:induction false} FewOthersKept(h: seq<Event>, name: Name)
    requires Alive(h, name) && |OthersSince(h, name)| < KEEP_LRU
    ensures Kept(h, name)
  {
    var front, last := h[..|h| - 1], h[|h| - 1];
    if last.name != name {
      SubsetSize(OthersSince(front, name), OthersSince(h, name));
      FewOthersKept(front, name);
      LiveAreOthers(h, name);
      SubsetSize(LiveSince(h, name), OthersSince(h, name));
    }
  }

  // With touches only, that is: used, and fewer than five distinct others since.
  lemma {:induction false} TouchedIffFewOthers(h: seq<Event>, name: Name)
    requires forall e :: e in h ==> e.Used?
    ensures LiveSince(h, name) == OthersSince(h, name)
    ensures Kept(h, name) <==> Alive(h, name) && |OthersSince(h, name)| < KEEP_LRU
  {
    if h == [] {
    } else {
      var front, last := h[..|h| - 1], h[|h| - 1];
      assert h == front + [last] && last in h;
      TouchedIffFewOthers(front, name);
      if last.name != name { SubsetSize(OthersSince(front, name), OthersSince(h, name)); }
    }
  }

  // ---------------------------------------------------------------------------------------------
  // Creates, deletions and lookups interleaved

  // `list` and the directories on disk, with the history of the list.
  datatype Shared = Shared(list: seq<Name>, dirs: set<Name>, history: seq<Event>)

  // The atomic steps of the operations: a locked `touch`, whose removal of the overflowing
  // directory may fail; the removal and the locked `retain` of `delete`; creating a staging
  // directory; and the rename that ends `create`. A removal that finds no directory is one too.
  datatype Step =
    | Touch(name: Name, removable: bool)
    | RemoveDir(name: Name)
    | Retain(name: Name)
    | Stage(name: Name)
    | Rename(name: Name)

  function Next(s: Shared, step: Step): Shared {
    match step
    case Touch(name, removable) =>
      var moved := [name] + RemoveFirst(s.list, name);
      var gone := moved[|moved| - 1];
      var evict := gone !in s.dirs || removable;
      Shared(Touched(s.list, name, evict),
             if |moved| > KEEP_LRU && evict then s.dirs - {gone} else s.dirs,
             s.history + [Used(name)])
    case RemoveDir(name) => s.(dirs := s.dirs - {name})
    case Retain(name) => s.(list := Without(s.list, name), history := s.history + [Dropped(name)])
    case Stage(name) => s.(dirs := s.dirs + {Staging(name)})
    case Rename(name) => s.(dirs := s.dirs - {Staging(name)} + {name})
  }

  // Every directory that is not a staging directory is listed.
  ghost predicate Tracked(s: Shared) {
    forall name :: name in s.dirs ==> name in s.list || IsStaging(name)
  }

  // The state after an interleaving, whoever's steps they are.
  function After(s: Shared, steps: seq<Step>): Shared {
    if steps == [] then s else Next(After(s, steps[..|steps| - 1]), steps[|steps| - 1])
  }

  function EventOf(step: Step): seq<Event> {
    match step
    case Touch(name, _) => [Used(name)]
    case Retain(name) => [Dropped(name)]
    case _ => []
  }

  // What a schedule does to the list.
  function Events(steps: seq<Step>): seq<Event> {
    if steps == [] then [] else Events(steps[..|steps| - 1]) + EventOf(steps[|steps| - 1])
  }

  lemma RemoveFirstKeepsOthers(l: seq<Name>, name: Name, other: Name)
    requires other != name
    ensures other in RemoveFirst(l, name) <==> other in l
  {
    var p := Position(l, name);
    if p < |l| { assert l == l[..p] + [name] + l[p + 1..]; }
  }

  // A touch that drops an entry removes its directory.
  lemma TouchKeepsTracked(s: Shared, name: Name, removable: bool)
    requires Tracked(s)
    ensures Tracked(Next(s, Touch(name, removable)))
  {
    var moved := [name] + RemoveFirst(s.list, name);
    var n := |moved| - 1;
    var s' := Next(s, Touch(name, removable));
    forall d | d in s'.dirs ensures d in s'.list || IsStaging(d) {
      if d != name { RemoveFirstKeepsOthers(s.list, name, d); }
      assert d in moved || IsStaging(d);
      assert moved == moved[..n] + [moved[n]];
    }
  }

  // What a touch does: the name comes first, the others keep their order; with five or more others
  // the last one goes, with its directory, unless that is there and cannot be removed.
  lemma TouchOutcome(s: Shared, name: Name, removable: bool)
    requires NoDup(s.list)
    ensures var s', others := Next(s, Touch(name, removable)), Without(s.list, name);
      if |others| < 5 || (others[|others| - 1] in s.dirs && !removable) then
        s'.list == [name] + others && s'.dirs == s.dirs
      else
        s'.list == [name] + others[..|others| - 1] && s'.dirs == s.dirs - {others[|others| - 1]}
  {
    RemoveFirstIsWithout(s.list, name);
    hide RemoveFirst, Without;
  }

  lemma StepKeepsAccount(s: Shared, step: Step)
    requires Accounted(s.list, s.history)
    ensures Accounted(Next(s, step).list, Next(s, step).history)
    ensures Next(s, step).history == s.history + EventOf(step)
  {
    hide RemoveFirst, Touched, Accounted, Without;
    match step
    case Touch(name, removable) =>
      var moved := [name] + RemoveFirst(s.list, name);
      TouchKeepsAccount(s.list, s.history, name, moved[|moved| - 1] !in s.dirs || removable);
    case Retain(name) => DropKeepsAccount(s.list, s.history, name);
    case _ => assert s.history + [] == s.history;
  }

  // A step keeps the directories listed exactly when a rename finds its name listed, and a `retain`
  // finds its directory gone.
  lemma StepKeepsTrackedIff(s: Shared, step: Step)
    requires Tracked(s)
    ensures Tracked(Next(s, step)) <==>
      match step
      case Rename(name) => name in s.list || IsStaging(name)
      case Retain(name) => name !in s.dirs || IsStaging(name)
      case _ => true
  {
    match step
    case Touch(name, removable) => TouchKeepsTracked(s, name, removable);
    case Retain(name) => WithoutKeeps(s.list, name);
    case Stage(name) => assert IsStaging(Staging(name));
    case Rename(name) =>
      var s' := Next(s, step);
      assert name in s'.dirs && s'.list == s.list;
    case _ =>
  }

  // ---------------------------------------------------------------------------------------------
  // What a schedule must respect, whatever removals fail

  function OthersTouched(steps: seq<Step>, name: Name): set<Name> {
    set i | 0 <= i < |steps| && steps[i].Touch? && steps[i].name != name :: steps[i].name
  }

  // The touch at `j` still protects the rename of `name` at `i`: no deletion of the name and fewer
  // than five distinct others touched in between.
  ghost predicate Protects(steps: seq<Step>, j: nat, i: nat, name: Name) {
    && j < i <= |steps| && steps[j].Touch? && steps[j].name == name
    && (forall k :: j < k < i ==> steps[k] != Retain(name))
    && |OthersTouched(steps[j + 1..i], name)| < KEEP_LRU
  }

  // The removal at `j` still holds at `i`: the name was not created again.
  ghost predicate Cleared(steps: seq<Step>, j: nat, i: nat, name: Name) {
    j < i <= |steps| && steps[j] == RemoveDir(name) && forall k :: j < k < i ==> steps[k] != Rename(name)
  }

  ghost predicate WellOrdered(steps: seq<Step>, i: nat)
    requires i < |steps|
  {
    match steps[i]
    case Rename(name) => exists j :: Protects(steps, j, i, name)
    case Retain(name) => exists j :: Cleared(steps, j, i, name)
    case _ => true
  }

  ghost predicate NoRetain(steps: seq<Step>, name: Name) {
    forall k :: 0 <= k < |steps| ==> steps[k] != Retain(name)
  }

  lemma OthersTouchedSnoc(front: seq<Step>, last: Step, name: Name)
    ensures OthersTouched(front + [last], name) ==
      OthersTouched(front, name) + if last.Touch? && last.name != name then {last.name} else {}
  {
    var all := front + [last];
    forall i | 0 <= i < |front| ensures all[i] == front[i] {}
    assert all[|front|] == last;
  }

  lemma EventsSnoc(front: seq<Step>, last: Step)
    ensures Events(front + [last]) == Events(front) + EventOf(last)
  {
    assert (front + [last])[..|front|] == front;
  }

  // Since a touch of `name`, a schedule that does not delete it uses no other names than it touches.
  lemma {:induction false} OthersSinceWindow(h: seq<Event>, steps: seq<Step>, name: Name)
    requires NoRetain(steps, name)
    ensures var h' := h + [Used(name)] + Events(steps);
      Alive(h', name) && OthersSince(h', name) <= OthersTouched(steps, name)
    decreases |steps|
  {
    var start := h + [Used(name)];
    if steps == [] {
      HistorySnoc(h, Used(name), name);
      assert start + [] == start;
    } else {
      var front, last := steps[..|steps| - 1], steps[|steps| - 1];
      assert steps == front + [last] && NoRetain(front, name) && last != Retain(name);
      OthersSinceWindow(h, front, name);
      OthersTouchedSnoc(front, last, name);
      EventsSnoc(front, last);
      hide *;
      WindowStep(start + Events(front), last, name);
      Regroup(start, Events(front), EventOf(last));
    }
  }

  lemma WindowStep(h: seq<Event>, last: Step, name: Name)
    requires Alive(h, name) && last != Retain(name)
    ensures Alive(h + EventOf(last), name)
    ensures OthersSince(h + EventOf(last), name) <=
      OthersSince(h, name) + if last.Touch? && last.name != name then {last.name} else {}
  {
    if EventOf(last) == [] {
      assert h + [] == h;
    } else {
      HistorySnoc(h, EventOf(last)[0], name);
      hide OthersSince, Alive, Kept, LiveSince;
      assert EventOf(last) == [EventOf(last)[0]];
    }
  }

  lemma {:induction false} AfterHistory(s: Shared, steps: seq<Step>)
    requires Accounted(s.list, s.history)
    ensures Accounted(After(s, steps).list, After(s, steps).history)
    ensures After(s, steps).history == s.history + Events(steps)
    decreases |steps|
  {
    if steps == [] {
      assert s.history + [] == s.history;
    } else {
      hide Accounted, Next;
      var front := steps[..|steps| - 1];
      AfterHistory(s, front);
      StepKeepsAccount(After(s, front), steps[|steps| - 1]);
    }
  }

  lemma {:induction false} EventsInTwo(a: seq<Step>, b: seq<Step>)
    ensures Events(a + b) == Events(a) + Events(b)
    decreases |b|
  {
    if b == [] {
      assert a + b == a && Events(a) + [] == Events(a);
    } else {
      hide *;
      var front, last := b[..|b| - 1], b[|b| - 1];
      assert b == front + [last];
      EventsInTwo(a, front);
      EventsSnoc(front, last);
      EventsSnoc(a + front, last);
      Regroup(a, front, [last]);
      Regroup(Events(a), Events(front), EventOf(last));
    }
  }

  lemma PrefixOfPrefix<T>(s: seq<T>, n: nat, k: nat)
    requires k <= n <= |s|
    ensures s[..n][..k] == s[..k]
  {
  }

  lemma EventsAround(steps: seq<Step>, j: nat)
    requires j < |steps|
    ensures Events(steps) == Events(steps[..j]) + EventOf(steps[j]) + Events(steps[j + 1..])
  {
    hide *;
    SplitAt(steps, j);
    EventsInTwo(steps[..j] + [steps[j]], steps[j + 1..]);
    EventsInTwo(steps[..j], [steps[j]]);
    EventsOfOne(steps[j]);
  }

  lemma AccountedLists(l: seq<Name>, h: seq<Event>, name: Name)
    requires Accounted(l, h) && Kept(h, name)
    ensures name in l
  {
    hide Kept, NoDup;
  }

  lemma ProtectedWindow(steps: seq<Step>, j: nat, name: Name)
    requires Protects(steps, j, |steps|, name)
    ensures EventOf(steps[j]) == [Used(name)]
    ensures NoRetain(steps[j + 1..], name)
    ensures |OthersTouched(steps[j + 1..], name)| < KEEP_LRU
  {
    assert steps[j + 1..|steps|] == steps[j + 1..];
    hide OthersTouched;
  }

  // A protected rename finds its name listed.
  lemma ProtectedIsListed(s: Shared, steps: seq<Step>, j: nat, name: Name)
    requires Accounted(s.list, s.history) && Protects(steps, j, |steps|, name)
    ensures name in After(s, steps).list
  {
    hide Accounted, OthersTouched, OthersSince, Alive, Kept, After, Events;
    AfterHistory(s, steps);
    EventsAround(steps, j);
    ProtectedWindow(steps, j, name);
    hide *;
    var before, since := s.history + Events(steps[..j]), steps[j + 1..];
    OthersSinceWindow(before, since, name);
    var h := before + [Used(name)] + Events(since);
    Regroup(s.history, Events(steps[..j]), [Used(name)]);
    Regroup(s.history, Events(steps[..j]) + [Used(name)], Events(since));
    SubsetSize(OthersSince(h, name), OthersTouched(since, name));
    FewOthersKept(h, name);
    AccountedLists(After(s, steps).list, h, name);
  }

  lemma EventsOfOne(step: Step)
    ensures Events([step]) == EventOf(step)
  {
    assert [step][..0] == [] && [] + EventOf(step) == EventOf(step);
  }

  // A removed directory is gone until its name is created again.
  lemma {:induction false} ClearedIsGone(s: Shared, steps: seq<Step>, j: nat, name: Name)
    requires Cleared(steps, j, |steps|, name) && !IsStaging(name)
    ensures name !in After(s, steps).dirs
    decreases |steps|
  {
    var n := |steps| - 1;
    if j < n {
      assert Cleared(steps[..n], j, n, name);
      ClearedIsGone(s, steps[..n], j, name);
      assert steps[n] != Rename(name);
      hide Touched, RemoveFirst, Without, After;
      if steps[n].Stage? { assert IsStaging(Staging(steps[n].name)); }
    }
  }

  // Every interleaving in which each rename has a touch of its name that still protects it, and each
  // `retain` a removal of its directory that still holds, leaves every cached directory listed,
  // whichever removals by `touch` fail.
  lemma {:induction false} ScheduleKeepsTracked(s: Shared, steps: seq<Step>)
    requires Accounted(s.list, s.history) && Tracked(s)
    requires forall i :: 0 <= i < |steps| ==> WellOrdered(steps, i)
    ensures Tracked(After(s, steps))
    decreases |steps|
  {
    if steps == [] {
    } else {
      var n := |steps| - 1;
      var front := steps[..n];
      forall i | 0 <= i < n ensures WellOrdered(front, i) { WellOrderedPrefix(steps, n, i); }
      ScheduleKeepsTracked(s, front);
      StepKeepsTrackedIff(After(s, front), steps[n]);
      assert WellOrdered(steps, n);
      hide Tracked, Next, Protects, Cleared;
      match steps[n]
      case Rename(name) =>
        var j :| Protects(steps, j, n, name);
        ProtectsPrefix(steps, n, j, n, name);
        ProtectedIsListed(s, front, j, name);
      case Retain(name) =>
        var j :| Cleared(steps, j, n, name);
        ClearedPrefix(steps, n, j, n, name);
        if !IsStaging(name) { ClearedIsGone(s, front, j, name); }
      case _ =>
    }
  }

  lemma ProtectsPrefix(steps: seq<Step>, n: nat, j: nat, i: nat, name: Name)
    requires i <= n <= |steps| && Protects(steps, j, i, name)
    ensures Protects(steps[..n], j, i, name)
  {
    assert steps[..n][j + 1..i] == steps[j + 1..i];
  }

  lemma ClearedPrefix(steps: seq<Step>, n: nat, j: nat, i: nat, name: Name)
    requires i <= n <= |steps| && Cleared(steps, j, i, name)
    ensures Cleared(steps[..n], j, i, name)
  {
  }

  lemma WellOrderedPrefix(steps: seq<Step>, n: nat, i: nat)
    requires i < n <= |steps| && WellOrdered(steps, i)
    ensures WellOrdered(steps[..n], i)
  {
    hide Protects, Cleared;
    match steps[i]
    case Rename(name) =>
      var j :| Protects(steps, j, i, name);
      ProtectsPrefix(steps, n, j, i, name);
    case Retain(name) =>
      var j :| Cleared(steps, j, i, name);
      ClearedPrefix(steps, n, j, i, name);
    case _ =>
  }

  // ---------------------------------------------------------------------------------------------
  // What it must respect exactly, when removals succeed

  lemma RenameKeepsTrackedIff(s: Shared, name: Name)
    requires Exact(s.list, s.history) && Tracked(s) && !IsStaging(name)
    ensures Tracked(Next(s, Rename(name))) <==> Kept(s.history, name)
  {
    StepKeepsTrackedIff(s, Rename(name));
  }

  function NamesUsed(since: seq<Event>): set<Name> {
    set e | e in since :: e.name
  }

  lemma NamesUsedSnoc(front: seq<Event>, last: Event)
    ensures NamesUsed(front + [last]) == NamesUsed(front) + {last.name}
  {
    forall e | e in front ensures e.name in NamesUsed(front + [last]) { assert e in front + [last]; }
    assert last in front + [last];
  }

  lemma {:induction false} KeptIffFewUsed(h: seq<Event>, since: seq<Event>, name: Name)
    requires forall e :: e in since ==> e.Used? && e.name != name
    ensures var h' := h + [Used(name)] + since;
      LiveSince(h', name) == NamesUsed(since) && (Kept(h', name) <==> |NamesUsed(since)| < KEEP_LRU)
    decreases |since|
  {
    var start := h + [Used(name)];
    HistorySnoc(h, Used(name), name);
    if since == [] {
      assert start + [] == start;
      assert NamesUsed([]) == {};
    } else {
      var front, last := since[..|since| - 1], since[|since| - 1];
      assert since == front + [last] && last in since;
      assert start + since == (start + front) + [last];
      hide LiveSince, Kept, NamesUsed;
      KeptIffFewUsed(h, front, name);
      HistorySnoc(start + front, last, name);
      NamesUsedSnoc(front, last);
      SubsetSize(NamesUsed(front), NamesUsed(since));
    }
  }

  // Five is tight, after any history: with nothing but touches of other names since the create's own
  // touch, the rename keeps every directory listed exactly when fewer than five names were touched.
  lemma FiveOthersLoseTheEntry(s: Shared, before: seq<Event>, since: seq<Event>, name: Name)
    requires Exact(s.list, s.history) && Tracked(s) && !IsStaging(name)
    requires s.history == before + [Used(name)] + since
    requires forall e :: e in since ==> e.Used? && e.name != name
    ensures Tracked(Next(s, Rename(name))) <==> |NamesUsed(since)| < 5
  {
    RenameKeepsTrackedIff(s, name);
    KeptIffFewUsed(before, since, name);
  }

  // So is the condition on deletions: a create that runs between the two halves of a `delete` of
  // the same name has its entry dropped with the directory in place.
  lemma DeleteAroundCreateLosesTheEntry(s: Shared, name: Name)
    requires !IsStaging(name)
    ensures var s1 := Next(Next(Next(s, RemoveDir(name)), Touch(name, true)), Rename(name));
      !Tracked(Next(s1, Retain(name)))
  {
    var s1 := Next(Next(Next(s, RemoveDir(name)), Touch(name, true)), Rename(name));
    WithoutKeeps(s1.list, name);
    assert name in Next(s1, Retain(name)).dirs;
  }

  const EMPTY := Shared([], {}, [])

  predicate Removable(steps: seq<Step>) {
    forall i :: 0 <= i < |steps| && steps[i].Touch? ==> steps[i].removable
  }

  ghost predicate NotRemoved(steps: seq<Step>, j: nat, name: Name) {
    forall k :: j < k < |steps| ==> steps[k] != RemoveDir(name)
  }

  ghost predicate KeptFrom(steps: seq<Step>, j: nat, name: Name) {
    forall k :: j < k <= |steps| ==> Kept(Events(steps[..k]), name)
  }

  // `name` was created by the rename at `j`, its directory not removed by a `delete` since, and it
  // was to be kept all the time.
  ghost predicate Stands(steps: seq<Step>, j: nat, name: Name) {
    j < |steps| && steps[j] == Rename(name) && NotRemoved(steps, j, name) && KeptFrom(steps, j, name)
  }

  ghost predicate Present(steps: seq<Step>, name: Name) {
    exists j :: Stands(steps, j, name)
  }

  // What the schedule must have done before step `i`.
  ghost predicate Sound(steps: seq<Step>, i: nat)
    requires i < |steps|
  {
    match steps[i]
    case Rename(name) => Kept(Events(steps[..i]), name) || IsStaging(name)
    case Retain(name) => !Present(steps[..i], name) || IsStaging(name)
    case _ => true
  }

  lemma StepIsExact(s: Shared, step: Step)
    requires Exact(s.list, s.history) && (step.Touch? ==> step.removable)
    ensures Exact(Next(s, step).list, Next(s, step).history)
    ensures Next(s, step).history == s.history + EventOf(step)
  {
    hide Exact, Touched, RemoveFirst, Without;
    match step
    case Touch(name, _) => TouchIsExact(s.list, s.history, name);
    case Retain(name) => DropIsExact(s.list, s.history, name);
    case _ => assert s.history + [] == s.history;
  }

  lemma AfterSnoc(steps: seq<Step>)
    requires steps != []
    ensures After(EMPTY, steps) == Next(After(EMPTY, steps[..|steps| - 1]), steps[|steps| - 1])
  {
    hide Next;
  }

  lemma RemovableSnoc(steps: seq<Step>)
    requires Removable(steps) && steps != []
    ensures Removable(steps[..|steps| - 1])
    ensures steps[|steps| - 1].Touch? ==> steps[|steps| - 1].removable
  {
  }

  lemma NothingIsExact()
    ensures Exact(After(EMPTY, []).list, Events([])) && After(EMPTY, []).history == Events([]) == []
  {
  }

  lemma {:induction false} AfterIsExact(steps: seq<Step>)
    requires Removable(steps)
    ensures Exact(After(EMPTY, steps).list, Events(steps)) && After(EMPTY, steps).history == Events(steps)
    decreases |steps|
  {
    hide *;
    if steps == [] {
      NothingIsExact();
    } else {
      var n := |steps| - 1;
      RemovableSnoc(steps);
      AfterIsExact(steps[..n]);
      AfterSnoc(steps);
      assert steps == steps[..n] + [steps[n]];
      EventsSnoc(steps[..n], steps[n]);
      StepIsExact(After(EMPTY, steps[..n]), steps[n]);
    }
  }

  lemma ListedAfter(steps: seq<Step>, name: Name)
    requires Removable(steps)
    ensures name in After(EMPTY, steps).list <==> Kept(Events(steps), name)
  {
    AfterIsExact(steps);
    hide After, Events, Kept, LiveSince;
  }

  lemma WholePrefix<T>(s: seq<T>)
    ensures s[..|s|] == s
  {
  }

  lemma NotRemovedSnoc(steps: seq<Step>, j: nat, name: Name)
    requires j < |steps| - 1
    ensures NotRemoved(steps, j, name) <==>
      NotRemoved(steps[..|steps| - 1], j, name) && steps[|steps| - 1] != RemoveDir(name)
  {
    assert forall k :: 0 <= k < |steps| - 1 ==> steps[..|steps| - 1][k] == steps[k];
  }

  lemma KeptFromSnoc(steps: seq<Step>, j: nat, name: Name)
    requires j <= |steps| - 1
    ensures KeptFrom(steps, j, name) <==> KeptFrom(steps[..|steps| - 1], j, name) && Kept(Events(steps), name)
  {
    hide Kept, Events;
    var n := |steps| - 1;
    WholePrefix(steps);
    forall k | j < k <= n ensures steps[..n][..k] == steps[..k] { PrefixOfPrefix(steps, n, k); }
    assert KeptFrom(steps, j, name) ==> Kept(Events(steps[..n + 1]), name);
  }

  lemma StandsThen(steps: seq<Step>, j: nat, name: Name)
    requires steps != []
    ensures var n := |steps| - 1;
      Stands(steps, j, name) <==>
        Kept(Events(steps), name) &&
        ((j == n && steps[n] == Rename(name)) || (steps[n] != RemoveDir(name) && Stands(steps[..n], j, name)))
  {
    hide Kept, Events, KeptFrom, NotRemoved;
    var n := |steps| - 1;
    if j <= n { KeptFromSnoc(steps, j, name); }
    if j < n {
      NotRemovedSnoc(steps, j, name);
    } else if j == n {
      LastStands(steps, name);
    }
  }

  lemma LastStands(steps: seq<Step>, name: Name)
    requires steps != []
    ensures NotRemoved(steps, |steps| - 1, name) && KeptFrom(steps[..|steps| - 1], |steps| - 1, name)
  {
  }

  lemma StandsSnoc(steps: seq<Step>, name: Name)
    requires steps != []
    ensures var n := |steps| - 1;
      Present(steps, name) <==>
        Kept(Events(steps), name) &&
        (steps[n] == Rename(name) || (steps[n] != RemoveDir(name) && Present(steps[..n], name)))
  {
    hide Kept, Events, Stands;
    var n := |steps| - 1;
    forall j: nat ensures Stands(steps, j, name) <==>
        Kept(Events(steps), name) &&
        ((j == n && steps[n] == Rename(name)) || (steps[n] != RemoveDir(name) && Stands(steps[..n], j, name)))
    {
      StandsThen(steps, j, name);
    }
    assert Kept(Events(steps), name) && steps[n] == Rename(name) ==> Stands(steps, n, name);
  }

  // One step of the next lemma: a directory is there after it if it was renamed into place, or was
  // there, was not removed, and is still listed.
  lemma DirsStep(s: Shared, step: Step, name: Name)
    requires NoDup(s.list) && Tracked(s) && Tracked(Next(s, step)) && !IsStaging(name)
    requires step.Touch? ==> step.removable
    ensures name in Next(s, step).dirs <==>
      name in Next(s, step).list &&
      (step == Rename(name) || (step != RemoveDir(name) && name in s.dirs))
  {
    if step.Touch? {
      RemoveFirstIsWithout(s.list, step.name);
      WithoutKeeps(s.list, step.name);
      hide RemoveFirst, Without;
      var moved := [step.name] + RemoveFirst(s.list, step.name);
      assert NoDup(moved);
      assert moved[|moved| - 1] !in moved[..|moved| - 1];
    } else if step.Stage? || step.Rename? {
      assert IsStaging(Staging(step.name));
    } else if step.Retain? {
      WithoutKeeps(s.list, step.name);
    }
  }

  ghost predicate AlwaysTracked(steps: seq<Step>) {
    forall i :: 0 <= i <= |steps| ==> Tracked(After(EMPTY, steps[..i]))
  }

  ghost predicate AlwaysSound(steps: seq<Step>) {
    forall i :: 0 <= i < |steps| ==> Sound(steps, i)
  }

  lemma AlwaysSnoc(steps: seq<Step>)
    requires steps != []
    ensures var front := steps[..|steps| - 1];
      && (AlwaysTracked(steps) <==> AlwaysTracked(front) && Tracked(After(EMPTY, steps)))
      && (AlwaysSound(steps) <==> AlwaysSound(front) && Sound(steps, |steps| - 1))
  {
    hide Tracked, After, Present, Kept, Events;
    var n := |steps| - 1;
    var front := steps[..n];
    assert steps[..n + 1] == steps;
    assert forall i :: 0 <= i <= n ==> front[..i] == steps[..i];
    if AlwaysTracked(steps) {
      assert Tracked(After(EMPTY, steps[..n + 1]));
      forall i | 0 <= i <= n ensures Tracked(After(EMPTY, front[..i])) {
        assert Tracked(After(EMPTY, steps[..i]));
      }
    }
    if AlwaysTracked(front) && Tracked(After(EMPTY, steps)) {
      forall i | 0 <= i <= n + 1 ensures Tracked(After(EMPTY, steps[..i])) {
        if i <= n { assert Tracked(After(EMPTY, front[..i])); }
      }
    }
    forall i | 0 <= i < n ensures Sound(front, i) <==> Sound(steps, i) {}
  }

  // Which directories are there, read off the schedule.
  lemma {:induction false} PresentAfter(steps: seq<Step>, name: Name)
    requires Removable(steps) && AlwaysTracked(steps) && !IsStaging(name)
    ensures name in After(EMPTY, steps).dirs <==> Present(steps, name)
    decreases |steps|
  {
    if steps == [] {
    } else {
      var n := |steps| - 1;
      var front := steps[..n];
      assert forall i :: 0 <= i < n ==> front[i] == steps[i];
      AlwaysSnoc(steps);
      PresentAfter(front, name);
      AfterIsExact(front);
      assert Tracked(After(EMPTY, front[..n])) && front[..n] == front;
      ListedAfter(steps, name);
      StandsSnoc(steps, name);
      AfterSnoc(steps);
      hide Tracked, Next, Kept, Present, Events, After, LiveSince, AlwaysTracked;
      DirsStep(After(EMPTY, front), steps[n], name);
    }
  }

  // From an empty cache, with removals succeeding: every cached directory is listed all the time
  // exactly when each rename finds its name still to be kept since the last touch of it, and each
  // `retain` comes with its name's directory removed or evicted after the last rename.
  lemma {:induction false} ScheduleTrackedIff(steps: seq<Step>)
    requires Removable(steps)
    ensures AlwaysTracked(steps) <==> AlwaysSound(steps)
    decreases |steps|
  {
    if steps == [] {
      assert Tracked(After(EMPTY, []));
    } else {
      var n := |steps| - 1;
      var front := steps[..n];
      assert forall i :: 0 <= i < n ==> front[i] == steps[i];
      AlwaysSnoc(steps);
      ScheduleTrackedIff(front);
      if AlwaysTracked(front) {
        assert Tracked(After(EMPTY, front[..n])) && front[..n] == front;
        StepKeepsTrackedIff(After(EMPTY, front), steps[n]);
        AfterSnoc(steps);
        hide Tracked, Next, Kept, Present, Events, After, LiveSince, AlwaysTracked, AlwaysSound;
        match steps[n]
        case Rename(name) => ListedAfter(front, name);
        case Retain(name) => if !IsStaging(name) { PresentAfter(front, name); }
        case _ =>
      }
    }
  }

  // ---------------------------------------------------------------------------------------------
  // The cache as an object, its operations one after the other

  // The state file: missing or not a JSON list of names, or such a list.
  datatype File = NoList | List(names: seq<Name>)

  // How writing the state file ends: done, not opened, or truncated and not fully written.
  datatype SaveResult = Written | NotOpened | Torn

  class Cache {
    var state: Option<seq<Name>>
    var file: File
    var dirs: set<Name>

    // What `load_or_get` yields: the cached value, else the file's, else the default.
    function Listed(): seq<Name>
      reads this
    {
      if state.Some? then state.value else if file.List? then file.names else []
    }

    ghost predicate AllTracked()
      reads this
    {
      Tracked(Shared(Listed(), dirs, []))
    }

    constructor (file: File, dirs: set<Name>)
      ensures state == None && this.file == file && this.dirs == dirs
    {
      this.state, this.file, this.dirs := None, file, dirs;
    }

    method LoadOrGet() returns (l: seq<Name>)
      modifies this`state
      ensures match (old(state), old(file))
        case (Some(names), _) => l == names
        case (None, List(names)) => l == names
        case (None, NoList) => l == []
      ensures state == Some(l) && Listed() == old(Listed()) == l
    {
      if state.Some? { return state.value; }
      l := if file.List? then file.names else [];
      state := Some(l);
    }

    // A new process on what is on disk. If the last save was written, it has the same list; in any
    // case it tracks its directories exactly if the file lists them.
    method Restart() returns (next: Cache)
      ensures fresh(next) && next.state == None && next.file == file && next.dirs == dirs
      ensures file == List(Listed()) ==> next.Listed() == Listed() && (AllTracked() ==> next.AllTracked())
      ensures next.AllTracked() <==> (forall d :: d in dirs ==> IsStaging(d) || (file.List? && d in file.names))
    {
      next := new Cache(file, dirs);
    }

    method Save(l: seq<Name>, how: SaveResult) returns (ok: bool)
      modifies this`state, this`file
      ensures Listed() == l && state == Some(l) && (ok <==> how == Written)
      ensures file == match how case Written => List(l) case NotOpened => old(file) case Torn => NoList
    {
      state := Some(l);
      ok := how == Written;
      match how
      case Written => file := List(l);
      case NotOpened =>
      case Torn => file := NoList;
    }

    method TouchEntry(name: Name, removable: bool, how: SaveResult) returns (ok: bool)
      modifies this
      ensures var s := Next(Shared(old(Listed()), old(dirs), []), Touch(name, removable));
        Listed() == s.list && dirs == s.dirs
      ensures old(AllTracked()) ==> AllTracked()
      ensures name in Listed() && Listed()[0] == name && (ok <==> how == Written)
      ensures ok ==> file == List(Listed())
    {
      hide Tracked, Position, RemoveFirst;
      TouchStaysTracked(Listed(), dirs, name, removable);
      ghost var after := Next(Shared(Listed(), dirs, []), Touch(name, removable));
      var l := LoadOrGet();
      l := [name] + RemoveFirst(l, name);
      if |l| > KEEP_LRU {
        var last := l[|l| - 1];
        if last !in dirs || removable {
          dirs := dirs - {last};
          l := l[..|l| - 1];
        }
      }
      assert l == after.list && dirs == after.dirs;
      ok := Save(l, how);
    }

    method Exists(name: Name, removable: bool, how: SaveResult) returns (found: bool)
      modifies this
      ensures found <==> name in old(dirs)
      ensures var s := Shared(old(Listed()), old(dirs), []);
        var s' := if found then Next(s, Touch(name, removable)) else s;
        Listed() == s'.list && dirs == s'.dirs
      ensures found ==> Listed()[0] == name && (how == Written ==> file == List(Listed()))
      ensures old(AllTracked()) ==> AllTracked()
    {
      found := name in dirs;
      if found { var _ := TouchEntry(name, removable, how); }
    }

    method Delete(name: Name, removable: bool, how: SaveResult) returns (ok: bool)
      modifies this
      ensures if name in old(dirs) && !removable then !ok && Listed() == old(Listed()) && dirs == old(dirs)
              else dirs == old(dirs) - {name} && Listed() == Without(old(Listed()), name) && (ok <==> how == Written)
      ensures ok ==> file == List(Listed())
      ensures ok ==>
        var s := Next(Next(Shared(old(Listed()), old(dirs), []), RemoveDir(name)), Retain(name));
        Listed() == s.list && dirs == s.dirs
      ensures old(AllTracked()) ==> AllTracked()
    {
      if name in dirs {
        if !removable { return false; }
        dirs := dirs - {name};
      }
      WithoutKeeps(Listed(), name);
      var l := LoadOrGet();
      ok := Save(Without(l, name), how);
    }

    // `stale` says whether an old staging directory could be removed, `made` and `filled` whether
    // the new one could be created and filled, and `renames` how the attempts to rename it go.
    method Create(name: Name, stale: bool, made: bool, filled: bool,
                  removable: bool, how: SaveResult, renames: seq<bool>)
      returns (ok: bool)
      requires |renames| == 21
      modifies this
      ensures old(AllTracked()) ==> AllTracked()
      ensures name in old(dirs) ==> ok && Listed() == old(Listed()) && dirs == old(dirs)
      ensures name !in old(dirs) && !(made && filled) ==>
        && !ok && Listed() == old(Listed())
        && dirs ==
             if made then old(dirs) + {Staging(name)}
             else if stale then old(dirs) - {Staging(name)}
             else old(dirs)
      ensures name !in old(dirs) && made && !filled ==> dirs == Next(old(Shared(Listed(), dirs, [])), Stage(name)).dirs
      ensures name !in old(dirs) && made && filled ==>
        var s := Next(Shared(old(Listed()), old(dirs) + {Staging(name)}, []), Touch(name, removable));
        && Listed() == s.list && Listed()[0] == name
        && (ok <==> Staging(name) in s.dirs && true in renames)
        && dirs == (if ok then s.dirs - {name + ".staging"} + {name} else s.dirs)
        && (ok ==> dirs == Next(s, Rename(name)).dirs)
        && (how == Written ==> file == List(Listed()))
      ensures name !in old(dirs) && made && filled && Staging(name) !in old(Listed()) ==> (ok <==> true in renames)
    {
      hide Next, Touched, RemoveFirst;
      if name in dirs { return true; }
      var temp := Staging(name);
      assert IsStaging(temp);
      if stale { dirs := dirs - {temp}; }
      if !made { return false; }
      dirs := dirs + {temp};
      StageDirs(old(Shared(Listed(), dirs, [])), name);
      if !filled { return false; }
      assert dirs == old(dirs) + {temp};
      ghost var before := Listed();
      if temp !in before { StagingSurvives(before, dirs, name, removable); }
      var _ := TouchEntry(name, removable, how);
      ghost var touched := dirs;
      RenameDirs(Next(Shared(before, old(dirs) + {temp}, []), Touch(name, removable)), name);
      for attempt := 0 to RENAME_ATTEMPTS + 1
        invariant old(AllTracked()) ==> AllTracked()
        invariant Listed()[..] == old(Next(Shared(Listed(), dirs + {temp}, []), Touch(name, removable)).list)
        invariant name in Listed() && Listed()[0] == name && dirs == touched
        invariant how == Written ==> file == List(Listed())
        invariant temp in dirs ==> true !in renames[..attempt]
      {
        if renames[attempt] && temp in dirs {
          dirs := dirs - {temp} + {name};
          return true;
        }
      }
      assert renames[..RENAME_ATTEMPTS + 1] == renames;
      return false;
    }
  }

  lemma TouchStaysTracked(l: seq<Name>, dirs: set<Name>, name: Name, removable: bool)
    ensures var s := Shared(l, dirs, []);
      Tracked(s) ==> Tracked(Shared(Next(s, Touch(name, removable)).list, Next(s, Touch(name, removable)).dirs, []))
  {
    var s := Shared(l, dirs, []);
    if Tracked(s) { TouchKeepsTracked(s, name, removable); }
  }

  lemma StageDirs(s: Shared, name: Name)
    ensures Next(s, Stage(name)).dirs == s.dirs + {Staging(name)}
  {
  }

  lemma RenameDirs(s: Shared, name: Name)
    ensures Next(s, Rename(name)).dirs == s.dirs - {Staging(name)} + {name}
  {
  }

  // Only an entry of the list can lose its directory to a touch of another name.
  lemma StagingSurvives(l: seq<Name>, dirs: set<Name>, name: Name, removable: bool)
    requires Staging(name) !in l && Staging(name) in dirs
    ensures Staging(name) in Next(Shared(l, dirs, []), Touch(name, removable)).dirs
  {
    var moved := [name] + RemoveFirst(l, name);
    RemoveFirstKeepsOthers(l, name, Staging(name));
    assert Staging(name) !in moved;
  }
}
