/**
 * The keyring store of cli/src/auth.rs, which splits a sealed credential over bounded entries.
 * Sealed text is taken to be ASCII, so that cutting it at any byte is cutting it between characters.
 * Sets of entry numbers say which entries of the system keyring refuse to be read, written or
 * deleted during a call.
 */
module KeyringStore {

  const CONTINUE_MARKER := "<MORE>"

  // The entries present in the system keyring, by number.
  type Ring = map<nat, string>

  predicate EndsWith(s: string, suffix: string) {
    |suffix| <= |s| && s[|s| - |suffix|..] == suffix
  }

  function Strip(s: string): string
    requires EndsWith(s, CONTINUE_MARKER)
  {
    s[..|s| - |CONTINUE_MARKER|]
  }

  // What an operation leaves in the keyring, and whether it succeeded.
  datatype Outcome = Outcome(ring: Ring, ok: bool)

  // Writing `rest` from entry `i` on, `step` characters at a time, until an entry refuses; a full
  // piece is marked as continued even when nothing follows it.
  function StoreFrom(ring: Ring, refused: set<nat>, rest: string, step: nat, i: nat): Outcome
    requires step > 0
    decreases |rest|
  {
    if rest == [] then Outcome(ring, true)
    else if i in refused then Outcome(ring, false)
    else if step <= |rest| then
      StoreFrom(ring[i := rest[..step] + CONTINUE_MARKER], refused, rest[step..], step, i + 1)
    else Outcome(ring[i := rest], true)
  }

  // One past the last entry a store from entry `i` on goes to.
  function StoreEnd(refused: set<nat>, rest: string, step: nat, i: nat): nat
    requires step > 0
    decreases |rest|
  {
    if rest == [] then i
    else if i in refused || |rest| < step then i + 1
    else StoreEnd(refused, rest[step..], step, i + 1)
  }

  datatype ReadResult = Found(text: string) | Missing | Broken

  // Text read so far, followed by what is still to be read.
  function Prepend(text: string, rest: ReadResult): ReadResult {
    match rest
    case Found(more) => Found(text + more)
    case other => other
  }

  lemma PrependTwice(a: string, b: string, rest: ReadResult)
    ensures Prepend(a + b, rest) == Prepend(a, Prepend(b, rest))
  {
    if rest.Found? { assert (a + b) + rest.text == a + (b + rest.text); }
  }

  ghost function KeysFrom(ring: Ring, i: nat): set<nat> {
    set k | k in ring && k >= i
  }

  lemma KeysShrink(ring: Ring, i: nat)
    requires i in ring
    ensures KeysFrom(ring, i + 1) < KeysFrom(ring, i)
  {
    assert i in KeysFrom(ring, i) && i !in KeysFrom(ring, i + 1);
  }

  predicate Continues(ring: Ring, broken: set<nat>, i: nat) {
    i !in broken && i in ring && EndsWith(ring[i], CONTINUE_MARKER)
  }

  // Reading from entry `i` on.
  function ReadFrom(ring: Ring, broken: set<nat>, i: nat): ReadResult
    decreases KeysFrom(ring, i)
  {
    if Continues(ring, broken, i) then
      KeysShrink(ring, i);
      Prepend(Strip(ring[i]), ReadFrom(ring, broken, i + 1))
    else if i in broken then Broken
    else if i !in ring then Missing
    else Found(ring[i])
  }

  // The entry at which reading from `i` on stops.
  function ReadEnd(ring: Ring, broken: set<nat>, i: nat): (end: nat)
    ensures i <= end && !Continues(ring, broken, end)
    ensures forall k :: i <= k < end ==> Continues(ring, broken, k)
    decreases KeysFrom(ring, i)
  {
    if Continues(ring, broken, i) then
      KeysShrink(ring, i);
      ReadEnd(ring, broken, i + 1)
    else i
  }

  // The first entry that does not continue decides: broken, missing, or the end of a text.
  lemma {:induction false} ReadStopsAtEnd(ring: Ring, broken: set<nat>, i: nat)
    ensures var end := ReadEnd(ring, broken, i);
      && (ReadFrom(ring, broken, i).Broken? <==> end in broken)
      && (ReadFrom(ring, broken, i).Missing? <==> end !in broken && end !in ring)
    decreases KeysFrom(ring, i)
  {
    if Continues(ring, broken, i) {
      KeysShrink(ring, i);
      ReadStopsAtEnd(ring, broken, i + 1);
    }
  }

  // Deleting entries `k` to `handles - 1` in order, until one is missing or refuses.
  function DeleteFrom(ring: Ring, refused: set<nat>, k: nat, handles: nat): Outcome
    decreases handles - k
  {
    if k >= handles then Outcome(ring, true)
    else if k !in ring || k in refused then Outcome(ring, false)
    else DeleteFrom(ring - {k}, refused, k + 1, handles)
  }

  // ---------------------------------------------------------------------------------------------
  // What storing leaves

  // The piece of `rest` after the last full step.
  function Last(rest: string, step: nat): string
    requires step > 0
  {
    rest[|rest| - |rest| % step..]
  }

  // How many entries are written.
  function Pieces(rest: string, step: nat): nat
    requires step > 0
    decreases |rest|
  {
    if rest == [] then 0 else if step <= |rest| then 1 + Pieces(rest[step..], step) else 1
  }

  lemma ModStep(n: nat, step: nat)
    requires 0 < step <= n
    ensures n % step == (n - step) % step
  {
    var q, r := (n - step) / step, (n - step) % step;
    assert n == (q + 1) * step + r;
    DivUnique(n, step, q + 1, r);
  }

  lemma DivUnique(n: nat, step: nat, q: nat, r: nat)
    requires step > 0 && n == q * step + r && r < step
    ensures n / step == q && n % step == r
  {
    var q', r' := n / step, n % step;
    assert n == q' * step + r';
    SameQuotient(step, q, r, q', r');
  }

  lemma SameQuotient(step: nat, q: int, r: nat, q': int, r': nat)
    requires r < step && r' < step && q * step + r == q' * step + r'
    ensures q == q' && r == r'
  {
    FartherApart(q - q', step);
    FartherApart(q' - q, step);
    Difference(q, q', step);
    Difference(q', q, step);
  }

  lemma FartherApart(d: int, step: nat)
    ensures d >= 1 ==> d * step >= step
  {
  }

  lemma Difference(q: int, q': int, step: nat)
    ensures (q - q') * step == q * step - q' * step
  {
  }

  lemma LastOfTail(rest: string, step: nat)
    requires 0 < step <= |rest|
    ensures Last(rest, step) == Last(rest[step..], step)
  {
    ModStep(|rest|, step);
  }

  lemma LastOfShort(rest: string, step: nat)
    requires |rest| < step
    ensures Last(rest, step) == rest
  {
    DivUnique(|rest|, step, 0, |rest|);
  }

  // A store leaves every entry it did not reach alone, and keeps to the limit in those it did.
  lemma {:induction false} StoreIsLocal(ring: Ring, refused: set<nat>, rest: string, step: nat, i: nat, k: nat)
    requires step > 0
    ensures var after := StoreFrom(ring, refused, rest, step, i).ring;
      && (k < i || k >= i + Pieces(rest, step) ==> (k in after <==> k in ring))
      && (k in after && (k !in ring || after[k] != ring[k]) ==> k !in refused && |after[k]| <= step + 6)
    ensures k < i && k in ring ==> StoreFrom(ring, refused, rest, step, i).ring[k] == ring[k]
    decreases |rest|
  {
    if rest != [] && i !in refused && step <= |rest| {
      StoreIsLocal(ring[i := rest[..step] + CONTINUE_MARKER], refused, rest[step..], step, i + 1, k);
    }
  }

  // A store succeeds exactly when none of the entries it needs refuses; it then holds handles for
  // all of them.
  lemma {:induction false} StoreSucceedsIff(ring: Ring, refused: set<nat>, rest: string, step: nat, i: nat)
    requires step > 0
    ensures StoreFrom(ring, refused, rest, step, i).ok <==>
      (forall k :: i <= k < i + Pieces(rest, step) ==> k !in refused)
    ensures StoreFrom(ring, refused, rest, step, i).ok ==> StoreEnd(refused, rest, step, i) == i + Pieces(rest, step)
    decreases |rest|
  {
    if rest == [] {
    } else if i in refused {
      assert Pieces(rest, step) >= 1;
    } else if step <= |rest| {
      StoreSucceedsIff(ring[i := rest[..step] + CONTINUE_MARKER], refused, rest[step..], step, i + 1);
    }
  }

  // ---------------------------------------------------------------------------------------------
  // Round trip

  lemma MarkedPiece(piece: string)
    ensures EndsWith(piece + CONTINUE_MARKER, CONTINUE_MARKER) && Strip(piece + CONTINUE_MARKER) == piece
  {
  }

  // One full piece stored at `i`, with the rest after it, reads as that piece and then the rest.
  lemma ReadFullPiece(ring: Ring, rest: string, step: nat, i: nat)
    requires 0 < step <= |rest|
    ensures var after := StoreFrom(ring, {}, rest, step, i).ring;
      ReadFrom(after, {}, i) == Prepend(rest[..step], ReadFrom(after, {}, i + 1))
  {
    var ring' := ring[i := rest[..step] + CONTINUE_MARKER];
    MarkedPiece(rest[..step]);
    StoreIsLocal(ring', {}, rest[step..], step, i + 1, i);
  }

  // The guard a caller could check: the length is not a multiple of the step (so not zero
  // either), and what follows the last full step does not itself end in the marker.
  predicate Storable(sealed: string, step: nat)
    requires step > 0
  {
    |sealed| % step != 0 && !EndsWith(Last(sealed, step), "<MORE>")
  }

  // What is left of `rest` when reading runs past its last piece.
  function Kept(rest: string, step: nat): string
    requires step > 0
  {
    if EndsWith(Last(rest, step), CONTINUE_MARKER) then rest[..|rest| - |CONTINUE_MARKER|] else rest
  }

  // What reading back gives, with `beyond` read from the entries after the stored ones.
  function ReadBackAs(rest: string, step: nat, beyond: ReadResult): ReadResult
    requires step > 0
  {
    if Storable(rest, step) then Found(rest) else Prepend(Kept(rest, step), beyond)
  }

  lemma LastFits(rest: string, step: nat)
    requires step > 0
    ensures |Last(rest, step)| <= |rest|
  {
  }

  lemma KeptStep(rest: string, step: nat)
    requires 0 < step <= |rest|
    ensures Kept(rest, step) == rest[..step] + Kept(rest[step..], step)
  {
    LastFits(rest[step..], step);
    LastOfTail(rest, step);
    hide Last;
    var head, tail := rest[..step], rest[step..];
    assert rest == head + tail;
    if EndsWith(Last(rest, step), CONTINUE_MARKER) {
      assert rest[..|rest| - |CONTINUE_MARKER|] == head + tail[..|tail| - |CONTINUE_MARKER|];
    }
  }

  lemma StorableStep(rest: string, step: nat)
    requires 0 < step <= |rest|
    ensures Storable(rest, step) == Storable(rest[step..], step)
  {
    LastOfTail(rest, step);
    ModStep(|rest|, step);
  }

  lemma ReadBackStep(rest: string, step: nat, beyond: ReadResult)
    requires 0 < step <= |rest|
    ensures ReadBackAs(rest, step, beyond) == Prepend(rest[..step], ReadBackAs(rest[step..], step, beyond))
  {
    KeptStep(rest, step);
    StorableStep(rest, step);
    PrependTwice(rest[..step], Kept(rest[step..], step), beyond);
    hide Storable, Kept;
  }

  // Reading after storing, whatever was in the keyring before.
  lemma {:induction false} ReadBack(ring: Ring, rest: string, step: nat, i: nat)
    requires step > 0
    ensures var after := StoreFrom(ring, {}, rest, step, i).ring;
      ReadFrom(after, {}, i) == ReadBackAs(rest, step, ReadFrom(after, {}, i + Pieces(rest, step)))
    decreases |rest|
  {
    hide *;
    if step <= |rest| { ReadBackOfFull(ring, rest, step, i); } else { ReadBackOfShort(ring, rest, step, i); }
  }

  lemma StoreFullPiece(ring: Ring, rest: string, step: nat, i: nat)
    requires 0 < step <= |rest|
    ensures StoreFrom(ring, {}, rest, step, i) ==
      StoreFrom(ring[i := rest[..step] + CONTINUE_MARKER], {}, rest[step..], step, i + 1)
    ensures Pieces(rest, step) == 1 + Pieces(rest[step..], step)
  {
  }

  lemma {:induction false} ReadBackOfFull(ring: Ring, rest: string, step: nat, i: nat)
    requires 0 < step <= |rest|
    ensures var after := StoreFrom(ring, {}, rest, step, i).ring;
      ReadFrom(after, {}, i) == ReadBackAs(rest, step, ReadFrom(after, {}, i + Pieces(rest, step)))
    decreases |rest|, 0
  {
    hide *;
    var after := StoreFrom(ring, {}, rest, step, i).ring;
    ReadFullPiece(ring, rest, step, i);
    StoreFullPiece(ring, rest, step, i);
    ReadBack(ring[i := rest[..step] + CONTINUE_MARKER], rest[step..], step, i + 1);
    ReadBackStep(rest, step, ReadFrom(after, {}, i + Pieces(rest, step)));
  }

  // Reading an entry that holds the last, short piece.
  lemma ReadPiece(ring: Ring, piece: string, i: nat)
    ensures ReadFrom(ring[i := piece], {}, i) ==
      if EndsWith(piece, CONTINUE_MARKER) then Prepend(Strip(piece), ReadFrom(ring[i := piece], {}, i + 1))
      else Found(piece)
  {
    hide Strip;
  }

  lemma ReadBackOfShort(ring: Ring, rest: string, step: nat, i: nat)
    requires |rest| < step
    ensures var after := StoreFrom(ring, {}, rest, step, i).ring;
      ReadFrom(after, {}, i) == ReadBackAs(rest, step, ReadFrom(after, {}, i + Pieces(rest, step)))
  {
    hide ReadFrom, Storable, Kept, Last, EndsWith, Strip;
    ShortText(rest, step);
    if rest == [] {
      NotMarked();
      PrependTwice([], [], ReadFrom(ring, {}, i));
    } else {
      ReadPiece(ring, rest, i);
    }
  }

  lemma NotMarked()
    ensures !EndsWith("", CONTINUE_MARKER)
  {
  }

  lemma ShortText(rest: string, step: nat)
    requires |rest| < step
    ensures Storable(rest, step) <==> rest != [] && !EndsWith(rest, CONTINUE_MARKER)
    ensures Kept(rest, step) == if EndsWith(rest, CONTINUE_MARKER) then Strip(rest) else rest
  {
    LastOfShort(rest, step);
    DivUnique(|rest|, step, 0, |rest|);
    hide Last;
  }

  // What was stored reads back, over any keyring, exactly for storable text.
  lemma StoredReadsBackIff(sealed: string, step: nat)
    requires step > 0
    ensures (forall ring: Ring :: ReadFrom(StoreFrom(ring, {}, sealed, step, 0).ring, {}, 0) == Found(sealed))
      <==> Storable(sealed, step)
  {
    if Storable(sealed, step) {
      forall ring: Ring
        ensures ReadFrom(StoreFrom(ring, {}, sealed, step, 0).ring, {}, 0) == Found(sealed)
      {
        ReadBack(ring, sealed, step, 0);
      }
    } else {
      NothingBeyondIsMissing(sealed, step);
    }
  }

  // Otherwise reading runs past the end; over an empty keyring the credential is not found at all.
  lemma NothingBeyondIsMissing(sealed: string, step: nat)
    requires step > 0 && !Storable(sealed, step)
    ensures StoreFrom(map[], {}, sealed, step, 0).ok
    ensures ReadFrom(StoreFrom(map[], {}, sealed, step, 0).ring, {}, 0) == Missing
  {
    StoreSucceedsIff(map[], {}, sealed, step, 0);
    ReadBack(map[], sealed, step, 0);
    StoreIsLocal(map[], {}, sealed, step, 0, Pieces(sealed, step));
  }

  // A positive exact multiple stores marked entries only: there is no last one.
  lemma {:induction false} ExactMultipleHasNoEnd(ring: Ring, rest: string, step: nat, i: nat, k: nat)
    requires step > 0 && |rest| % step == 0 && i <= k < i + Pieces(rest, step)
    ensures var after := StoreFrom(ring, {}, rest, step, i).ring;
      k in after && EndsWith(after[k], "<MORE>")
    decreases |rest|
  {
    if |rest| < step { LastOfShort(rest, step); }
    var ring' := ring[i := rest[..step] + CONTINUE_MARKER];
    MarkedPiece(rest[..step]);
    StoreIsLocal(ring', {}, rest[step..], step, i + 1, i);
    if k > i {
      ModStep(|rest|, step);
      ExactMultipleHasNoEnd(ring', rest[step..], step, i + 1, k);
    }
  }

  lemma StoreHead(ring: Ring, rest: string, step: nat, i: nat)
    requires step > 0 && rest != []
    ensures var after := StoreFrom(ring, {}, rest, step, i).ring;
      && i in after
      && (step <= |rest| ==> EndsWith(after[i], CONTINUE_MARKER))
      && (|rest| < step ==> after[i] == rest)
  {
    if step <= |rest| {
      var piece := rest[..step] + CONTINUE_MARKER;
      MarkedPiece(rest[..step]);
      StoreIsLocal(ring[i := piece], {}, rest[step..], step, i + 1, i);
    }
  }

  // Storing leaves all its entries there, and reading storable text stops at the last of them.
  lemma {:induction false} StoredEntries(ring: Ring, rest: string, step: nat, i: nat, k: nat)
    requires step > 0 && i <= k < i + Pieces(rest, step)
    ensures k in StoreFrom(ring, {}, rest, step, i).ring
    ensures Storable(rest, step) ==>
      ReadEnd(StoreFrom(ring, {}, rest, step, i).ring, {}, i) == i + Pieces(rest, step) - 1
    decreases |rest|
  {
    StoreHead(ring, rest, step, i);
    if step <= |rest| {
      var ring' := ring[i := rest[..step] + CONTINUE_MARKER];
      StoreFullPiece(ring, rest, step, i);
      StorableStep(rest, step);
      NonEmptyTail(rest, step);
      hide StoreFrom, Storable, EndsWith;
      if Pieces(rest[step..], step) > 0 {
        StoredEntries(ring', rest[step..], step, i + 1, Max(k, i + 1));
      }
    } else {
      ShortText(rest, step);
      hide StoreFrom, Storable;
    }
  }

  lemma NonEmptyTail(rest: string, step: nat)
    requires 0 < step <= |rest|
    ensures Storable(rest, step) ==> Pieces(rest[step..], step) > 0
  {
    StorableStep(rest, step);
    if rest[step..] == [] { DivUnique(0, step, 0, 0); }
  }

  // ---------------------------------------------------------------------------------------------
  // Clearing

  function Without(ring: Ring, k: nat, stop: nat): Ring {
    map j | j in ring && !(k <= j < stop) :: ring[j]
  }

  lemma WithoutOne(ring: Ring, k: nat, stop: nat)
    requires k < stop
    ensures Without(ring - {k}, k + 1, stop) == Without(ring, k, stop)
  {
  }

  // Deleting succeeds exactly when every entry it goes over is there and lets itself be deleted;
  // it removes those, or a first stretch of them when it stops, and nothing else.
  lemma {:induction false} DeleteIsExact(ring: Ring, refused: set<nat>, k: nat, handles: nat)
    requires k <= handles
    ensures var after := DeleteFrom(ring, refused, k, handles);
      && (after.ok <==> (forall j :: k <= j < handles ==> j in ring && j !in refused))
      && (after.ok ==> after.ring == Without(ring, k, handles))
      && (exists stop :: k <= stop <= handles && after.ring == Without(ring, k, stop))
    decreases handles - k
  {
    if k == handles || k !in ring || k in refused {
      assert Without(ring, k, k) == ring;
    } else {
      DeleteIsExact(ring - {k}, refused, k + 1, handles);
      var after := DeleteFrom(ring - {k}, refused, k + 1, handles);
      var stop :| k + 1 <= stop <= handles && after.ring == Without(ring - {k}, k + 1, stop);
      WithoutOne(ring, k, stop);
      WithoutOne(ring, k, handles);
      forall j | k <= j < handles
        ensures (j in ring && j !in refused) == (j == k || (j in ring - {k} && j !in refused))
      {
      }
      hide Without;
    }
  }

  function Max(a: nat, b: nat): nat { if a < b then b else a }

  // Clearing first reads, so that a handle is held for every entry up to the one reading stops at.
  function ClearAll(ring: Ring, broken: set<nat>, refused: set<nat>, handles: nat): Outcome {
    DeleteFrom(ring, refused, 0, Max(handles, ReadEnd(ring, broken, 0) + 1))
  }

  // After a successful clear nothing is found, and every entry the session has a handle for is gone,
  // those of longer credentials stored earlier included; other entries stay. It succeeds only on a
  // keyring that holds every entry reading goes over, the one it stops at included: with nothing
  // stored, or with text whose last piece is marked, there is a missing entry and clearing reports
  // an error.
  lemma ClearIsFinal(ring: Ring, broken: set<nat>, refused: set<nat>, handles: nat)
    ensures var after := ClearAll(ring, broken, refused, handles);
      && (after.ok ==> 0 !in after.ring && ReadFrom(after.ring, {}, 0) == Missing)
      && (after.ok ==> after.ring == Without(ring, 0, Max(handles, ReadEnd(ring, broken, 0) + 1)))
      && (after.ok ==> ReadEnd(ring, broken, 0) in ring)
      && (after.ok <==>
            (forall j :: 0 <= j < Max(handles, ReadEnd(ring, broken, 0) + 1) ==> j in ring && j !in refused))
  {
    DeleteIsExact(ring, refused, 0, Max(handles, ReadEnd(ring, broken, 0) + 1));
  }

  lemma NextPiece(i: nat, step: nat, k: nat)
    requires step > 0 && i == k * step
    ensures i / step == k && i + step == (k + 1) * step
  {
    DivUnique(i, step, k, 0);
  }

  lemma StoreNone(ring: Ring, refused: set<nat>, step: nat, k: nat)
    requires step > 0
    ensures StoreFrom(ring, refused, [], step, k) == Outcome(ring, true) && StoreEnd(refused, [], step, k) == k
  {
  }

  // One turn of the loop of a store; after a short piece nothing is left.
  lemma StoreStep(ring: Ring, refused: set<nat>, rest: string, step: nat, k: nat)
    requires step > 0 && rest != []
    ensures k in refused ==>
      StoreFrom(ring, refused, rest, step, k) == Outcome(ring, false) && StoreEnd(refused, rest, step, k) == k + 1
    ensures k !in refused && step <= |rest| ==>
      && StoreFrom(ring, refused, rest, step, k)
           == StoreFrom(ring[k := rest[..step] + CONTINUE_MARKER], refused, rest[step..], step, k + 1)
      && StoreEnd(refused, rest, step, k) == StoreEnd(refused, rest[step..], step, k + 1)
    ensures k !in refused && |rest| < step ==>
      && StoreFrom(ring, refused, rest, step, k) == StoreFrom(ring[k := rest], refused, [], step, k + 1)
      && StoreEnd(refused, rest, step, k) == StoreEnd(refused, [], step, k + 1)
  {
  }

  /**
   * The storage object: it holds a handle for each of the first `handles` entries. `ring` stands for
   * the system keyring it works on.
   */
  class KeyringStorage {
    const step: nat
    var handles: nat
    var ring: Ring

    constructor (limit: nat, ring: Ring)
      requires limit > |CONTINUE_MARKER|
      ensures this.step == limit - |CONTINUE_MARKER| && this.ring == ring && handles == 0
    {
      step := limit - |CONTINUE_MARKER|;
      handles := 0;
      this.ring := ring;
    }

    // The handle for entry `i`, made when it is the next one.
    method NextEntry(i: nat)
      requires i <= handles
      modifies `handles
      ensures handles == Max(old(handles), i + 1)
    {
      if i >= handles { handles := handles + 1; }
    }

    method Read(broken: set<nat>) returns (result: ReadResult)
      modifies `handles
      ensures result == ReadFrom(ring, broken, 0)
      ensures handles == Max(old(handles), ReadEnd(ring, broken, 0) + 1)
    {
      var text := "";
      var i := 0;
      while true
        invariant i <= handles == Max(old(handles), i)
        invariant ReadEnd(ring, broken, 0) == ReadEnd(ring, broken, i)
        invariant ReadFrom(ring, broken, 0) == Prepend(text, ReadFrom(ring, broken, i))
        decreases KeysFrom(ring, i)
      {
        NextEntry(i);
        if i in broken { return Broken; }
        if i !in ring { return Missing; }
        if !EndsWith(ring[i], CONTINUE_MARKER) {
          return Found(text + ring[i]);
        }
        KeysShrink(ring, i);
        PrependTwice(text, Strip(ring[i]), ReadFrom(ring, broken, i + 1));
        text := text + Strip(ring[i]);
        i := i + 1;
      }
    }

    method Store(sealed: string, refused: set<nat>) returns (ok: bool)
      requires step > 0
      modifies this
      ensures Outcome(ring, ok) == StoreFrom(old(ring), refused, sealed, step, 0)
      ensures handles == Max(old(handles), StoreEnd(refused, sealed, step, 0))
    {
      hide StoreFrom, StoreEnd;
      var i := 0;
      ghost var k: nat, rest := 0, sealed;
      while i < |sealed|
        invariant i == k * step && handles == Max(old(handles), k)
        invariant rest == if i < |sealed| then sealed[i..] else []
        invariant StoreFrom(old(ring), refused, sealed, step, 0) == StoreFrom(ring, refused, rest, step, k)
        invariant StoreEnd(refused, sealed, step, 0) == StoreEnd(refused, rest, step, k)
        decreases |sealed| - i
      {
        StoreStep(ring, refused, rest, step, k);
        NextPiece(i, step, k);
        NextEntry(i / step);
        var cutoff := i + step;
        if i / step in refused { return false; }
        if cutoff <= |sealed| {
          assert rest[..step] == sealed[i..cutoff] && rest[step..] == sealed[cutoff..];
          ring := ring[i / step := sealed[i..cutoff] + CONTINUE_MARKER];
          rest := rest[step..];
        } else {
          ring := ring[i / step := sealed[i..]];
          rest := [];
        }
        i, k := cutoff, k + 1;
      }
      StoreNone(ring, refused, step, k);
      ok := true;
    }

    method Clear(broken: set<nat>, refused: set<nat>) returns (ok: bool)
      modifies this
      ensures Outcome(ring, ok) == ClearAll(old(ring), broken, refused, old(handles))
      ensures handles == if ok then 0 else Max(old(handles), ReadEnd(old(ring), broken, 0) + 1)
    {
      var _ := Read(broken);
      var k := 0;
      while k < handles
        invariant k <= handles == Max(old(handles), ReadEnd(old(ring), broken, 0) + 1)
        invariant DeleteFrom(ring, refused, k, handles) == ClearAll(old(ring), broken, refused, old(handles))
      {
        if k !in ring || k in refused { return false; }
        ring := ring - {k};
        k := k + 1;
      }
      handles := 0;
      ok := true;
    }
  }
}
