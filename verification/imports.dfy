/**
 * `mergeDuplicateImports` of scripts/sync-agent-host-protocol.ts, on lines already matched against
 * the two import patterns.
 */
module ImportMerger {
  import opened Prelude

  // `import type { names } from 'mod';`, `import { names } from 'mod';`, or any other line. A name
  // of a value import may itself be of the form `type X`.
  datatype Line =
    | TypeImport(names: seq<string>, mod: string)
    | ValueImport(names: seq<string>, mod: string)
    | Other(text: string)

  const PLACEHOLDER := "__IMPORT_PLACEHOLDER__"
  const TYPE := "type "

  // What `[...new Set(s)]` leaves: the first occurrence of each element.
  function Dedup<T(==)>(s: seq<T>): seq<T> {
    if s == [] then []
    else
      var front, last := s[..|s| - 1], s[|s| - 1];
      Dedup(front) + if last in front then [] else [last]
  }

  function Modules(lines: seq<Line>): set<string> {
    set i | 0 <= i < |lines| && !lines[i].Other? :: lines[i].mod
  }

  function TypeNames(lines: seq<Line>, mod: string): seq<string> {
    if lines == [] then []
    else
      var last := lines[|lines| - 1];
      TypeNames(lines[..|lines| - 1], mod) + if last.TypeImport? && last.mod == mod then last.names else []
  }

  function ValueNames(lines: seq<Line>, mod: string): seq<string> {
    if lines == [] then []
    else
      var last := lines[|lines| - 1];
      ValueNames(lines[..|lines| - 1], mod) + if last.ValueImport? && last.mod == mod then last.names else []
  }

  function Typed(names: seq<string>): seq<string> {
    seq(|names|, i requires 0 <= i < |names| => TYPE + names[i])
  }

  // The one import a module is left with.
  function Combine(typeNames: seq<string>, valueNames: seq<string>, mod: string): Line {
    var types, values := Dedup(typeNames), Dedup(valueNames);
    if values != [] && types != [] then ValueImport(values + Typed(types), mod)
    else if values != [] then ValueImport(values, mod)
    else TypeImport(types, mod)
  }

  // `otherLines`: other lines, and a placeholder where a module is first imported.
  function Slots(lines: seq<Line>): seq<string> {
    if lines == [] then []
    else
      var front, last := lines[..|lines| - 1], lines[|lines| - 1];
      Slots(front) +
      match last
      case Other(text) => [text]
      case _ => if last.mod in Modules(front) then [] else [PLACEHOLDER + last.mod]
  }

  // The final pass. A placeholder for a module without imports is an uncaught exception.
  function Render(lines: seq<Line>, slots: seq<string>): Option<seq<Line>> {
    if slots == [] then Some([])
    else
      var front, last := slots[..|slots| - 1], slots[|slots| - 1];
      match Render(lines, front)
      case None => None
      case Some(done) =>
        if PLACEHOLDER <= last then
          var mod := last[|PLACEHOLDER|..];
          if mod in Modules(lines) then
            Some(done + [Combine(TypeNames(lines, mod), ValueNames(lines, mod), mod)])
          else None
        else Some(done + [Other(last)])
  }

  function Merge(lines: seq<Line>): Option<seq<Line>> {
    Render(lines, Slots(lines))
  }

  datatype Names = Names(typeNames: seq<string>, valueNames: seq<string>)

  // The first loop: names by module, and the lines to render.
  method Collect(lines: seq<Line>) returns (importsByModule: map<string, Names>, otherLines: seq<string>)
    ensures importsByModule.Keys == Modules(lines) && otherLines == Slots(lines)
    ensures forall mod :: mod in importsByModule ==>
      importsByModule[mod] == Names(TypeNames(lines, mod), ValueNames(lines, mod))
  {
    hide Modules, Slots, TypeNames, ValueNames;
    importsByModule, otherLines := map[], [];
    NothingYet(lines);
    for i := 0 to |lines|
      invariant importsByModule.Keys == Modules(lines[..i]) && otherLines == Slots(lines[..i])
      invariant forall mod :: mod in importsByModule ==>
        importsByModule[mod] == Names(TypeNames(lines[..i], mod), ValueNames(lines[..i], mod))
    {
      var line := lines[i];
      ModulesOfNext(lines, i);
      NextLine(lines, i);
      if line.Other? {
        otherLines := otherLines + [line.text];
      } else {
        var mod := line.mod;
        if mod !in importsByModule {
          NamesOfUnseen(lines[..i], mod);
          otherLines := otherLines + [PLACEHOLDER + mod];
          importsByModule := importsByModule[mod := Names([], [])];
        }
        var entry := importsByModule[mod];
        if line.TypeImport? {
          importsByModule := importsByModule[mod := entry.(typeNames := entry.typeNames + line.names)];
        } else {
          importsByModule := importsByModule[mod := entry.(valueNames := entry.valueNames + line.names)];
        }
      }
    }
    assert lines[..|lines|] == lines;
  }

  // The whole function: collect, then replace each placeholder.
  method MergeDuplicateImports(lines: seq<Line>) returns (merged: Option<seq<Line>>)
    ensures merged == Merge(lines)
  {
    hide Modules, Slots, TypeNames, ValueNames, Combine;
    var importsByModule, otherLines := Collect(lines);
    var out: seq<Line> := [];
    for i := 0 to |otherLines|
      invariant Render(lines, otherLines[..i]) == Some(out)
    {
      var line := otherLines[i];
      assert otherLines[..i + 1][..i] == otherLines[..i];
      if PLACEHOLDER <= line {
        var mod := line[|PLACEHOLDER|..];
        if mod !in importsByModule {
          RenderFails(lines, otherLines, i + 1);
          return None;
        }
        out := out + [Combine(importsByModule[mod].typeNames, importsByModule[mod].valueNames, mod)];
      } else {
        out := out + [Other(line)];
      }
    }
    assert otherLines[..|otherLines|] == otherLines;
    return Some(out);
  }

  lemma NothingYet(lines: seq<Line>)
    ensures Modules(lines[..0]) == {} && Slots(lines[..0]) == []
    ensures forall mod :: TypeNames(lines[..0], mod) == [] && ValueNames(lines[..0], mod) == []
  {
  }

  // What each function of the lines makes of one line more.
  lemma NextLine(lines: seq<Line>, i: nat)
    requires i < |lines|
    ensures var line, before, now := lines[i], lines[..i], lines[..i + 1];
      && Slots(now) == Slots(before) +
           (if line.Other? then [line.text] else if line.mod in Modules(before) then [] else [PLACEHOLDER + line.mod])
      && (forall mod :: TypeNames(now, mod) ==
            TypeNames(before, mod) + if line.TypeImport? && line.mod == mod then line.names else [])
      && (forall mod :: ValueNames(now, mod) ==
            ValueNames(before, mod) + if line.ValueImport? && line.mod == mod then line.names else [])
  {
    assert lines[..i + 1][..i] == lines[..i];
  }

  lemma ModulesOfNext(lines: seq<Line>, i: nat)
    requires i < |lines|
    ensures Modules(lines[..i + 1]) == Modules(lines[..i]) + if lines[i].Other? then {} else {lines[i].mod}
  {
    var a, b := lines[..i], lines[..i + 1];
    forall mod | mod in Modules(a) ensures mod in Modules(b) {
      var k :| 0 <= k < |a| && !a[k].Other? && a[k].mod == mod;
      assert b[k] == a[k];
    }
    if !lines[i].Other? { assert b[i] == lines[i]; }
  }

  lemma {:induction false} NamesOfUnseen(lines: seq<Line>, mod: string)
    ensures mod !in Modules(lines) ==> TypeNames(lines, mod) == [] && ValueNames(lines, mod) == []
  {
    if lines != [] && mod !in Modules(lines) {
      assert lines[..|lines|] == lines;
      ModulesOfNext(lines, |lines| - 1);
      NamesOfUnseen(lines[..|lines| - 1], mod);
    }
  }

  lemma {:induction false} RenderFails(lines: seq<Line>, slots: seq<string>, i: nat)
    requires i <= |slots| && Render(lines, slots[..i]) == None
    ensures Render(lines, slots) == None
    decreases |slots|
  {
    if i < |slots| {
      assert slots[..|slots| - 1][..i] == slots[..i];
      RenderFails(lines, slots[..|slots| - 1], i);
    } else {
      assert slots[..i] == slots;
    }
  }

  // ---------------------------------------------------------------------------------------------
  // Where the lines go

  datatype Place = Text(text: string) | Import(mod: string)

  // The lines that stay: every other line, and each module at its first import.
  function Outline(lines: seq<Line>): seq<Place> {
    if lines == [] then []
    else
      var front, last := lines[..|lines| - 1], lines[|lines| - 1];
      Outline(front) +
      match last
      case Other(text) => [Text(text)]
      case _ => if last.mod in Modules(front) then [] else [Import(last.mod)]
  }

  // No module has two places.
  ghost predicate Singular(outline: seq<Place>) {
    forall i, j :: 0 <= i < j < |outline| && outline[i].Import? ==> outline[i] != outline[j]
  }

  function Merged(lines: seq<Line>, mod: string): Line {
    Combine(TypeNames(lines, mod), ValueNames(lines, mod), mod)
  }

  function LineAt(lines: seq<Line>, place: Place): Line {
    match place case Text(text) => Other(text) case Import(mod) => Merged(lines, mod)
  }

  function Fill(lines: seq<Line>, outline: seq<Place>): seq<Line> {
    seq(|outline|, i requires 0 <= i < |outline| => LineAt(lines, outline[i]))
  }

  // No other line starts with the text that marks a placeholder.
  ghost predicate Clean(lines: seq<Line>) {
    forall i :: 0 <= i < |lines| && lines[i].Other? ==> !(PLACEHOLDER <= lines[i].text)
  }

  // Where the final pass puts each slot: any text that starts like a placeholder counts as one.
  function PlaceOf(slot: string): Place {
    if PLACEHOLDER <= slot then Import(slot[|PLACEHOLDER|..]) else Text(slot)
  }

  function PlacesOf(slots: seq<string>): seq<Place> {
    seq(|slots|, i requires 0 <= i < |slots| => PlaceOf(slots[i]))
  }

  // Every slot that looks like a placeholder is for an imported module.
  ghost predicate AllKnown(lines: seq<Line>, slots: seq<string>) {
    forall slot :: slot in slots && PlaceOf(slot).Import? ==> PlaceOf(slot).mod in Modules(lines)
  }

  lemma {:induction false} RenderIsFill(lines: seq<Line>, slots: seq<string>)
    ensures Render(lines, slots) == if AllKnown(lines, slots) then Some(Fill(lines, PlacesOf(slots))) else None
    decreases |slots|
  {
    hide Modules, Combine;
    if slots == [] {
      assert Fill(lines, PlacesOf(slots)) == [];
    } else {
      var front, last := slots[..|slots| - 1], slots[|slots| - 1];
      RenderIsFill(lines, front);
      assert slots == front + [last];
      assert AllKnown(lines, slots) <==>
        AllKnown(lines, front) && (PlaceOf(last).Import? ==> PlaceOf(last).mod in Modules(lines));
      FillSnoc(lines, front, last);
      RenderSnoc(lines, front, last);
      hide *;
    }
  }

  lemma FillSnoc(lines: seq<Line>, front: seq<string>, last: string)
    ensures Fill(lines, PlacesOf(front + [last])) == Fill(lines, PlacesOf(front)) + [LineAt(lines, PlaceOf(last))]
  {
    hide Merged, PlaceOf;
  }

  lemma RenderSnoc(lines: seq<Line>, front: seq<string>, last: string)
    ensures Render(lines, front + [last]) ==
      if Render(lines, front).None? || (PlaceOf(last).Import? && PlaceOf(last).mod !in Modules(lines)) then None
      else Some(Render(lines, front).value + [LineAt(lines, PlaceOf(last))])
  {
    hide Modules, Combine;
    assert (front + [last])[..|front|] == front;
  }

  lemma MergeIsFill(lines: seq<Line>)
    ensures Merge(lines) ==
      if AllKnown(lines, Slots(lines)) then Some(Fill(lines, PlacesOf(Slots(lines)))) else None
  {
    RenderIsFill(lines, Slots(lines));
    hide Render, AllKnown, Fill, PlacesOf, Slots;
  }

  lemma SlotsSnoc(lines: seq<Line>)
    requires lines != []
    ensures var front, last := lines[..|lines| - 1], lines[|lines| - 1];
      && Slots(lines) == Slots(front) +
           (if last.Other? then [last.text] else if last.mod in Modules(front) then [] else [PLACEHOLDER + last.mod])
      && Outline(lines) == Outline(front) +
           (if last.Other? then [Text(last.text)] else if last.mod in Modules(front) then [] else [Import(last.mod)])
  {
    hide Modules;
  }

  lemma PlacesInTwo(a: seq<string>, b: seq<string>)
    ensures PlacesOf(a + b) == PlacesOf(a) + PlacesOf(b)
  {
    hide PlaceOf;
  }

  lemma PlaceOfMark(mod: string)
    ensures PlaceOf(PLACEHOLDER + mod) == Import(mod)
  {
    assert (PLACEHOLDER + mod)[|PLACEHOLDER|..] == mod;
  }

  lemma CleanFront(lines: seq<Line>)
    requires Clean(lines) && lines != []
    ensures Clean(lines[..|lines| - 1])
    ensures lines[|lines| - 1].Other? ==> PlaceOf(lines[|lines| - 1].text) == Text(lines[|lines| - 1].text)
  {
  }

  // Without lines that look like placeholders, the slots are the outline.
  lemma {:induction false} CleanOutline(lines: seq<Line>)
    requires Clean(lines)
    ensures PlacesOf(Slots(lines)) == Outline(lines)
    decreases |lines|
  {
    if lines == [] {
    } else {
      var front, last := lines[..|lines| - 1], lines[|lines| - 1];
      CleanFront(lines);
      SlotsSnoc(lines);
      hide *;
      CleanOutline(front);
      var more :=
        if last.Other? then [last.text] else if last.mod in Modules(front) then [] else [PLACEHOLDER + last.mod];
      PlacesInTwo(Slots(front), more);
      PlacesOfFew(more);
      if !last.Other? { PlaceOfMark(last.mod); }
    }
  }

  lemma PlacesOfFew(slots: seq<string>)
    requires |slots| <= 1
    ensures PlacesOf(slots) == if slots == [] then [] else [PlaceOf(slots[0])]
  {
    hide PlaceOf;
  }

  // A slot is another line, or the mark of a module.
  lemma {:induction false} SlotsAre(lines: seq<Line>, slot: string)
    ensures slot in Slots(lines) <==>
      Other(slot) in lines || (PLACEHOLDER <= slot && slot[|PLACEHOLDER|..] in Modules(lines))
    decreases |lines|
  {
    if lines == [] {
      NoModules(lines);
    } else {
      var n := |lines| - 1;
      SlotsAre(lines[..n], slot);
      SlotsSnoc(lines);
      assert lines[..n + 1] == lines;
      ModulesOfNext(lines, n);
      hide Modules, Slots, Outline;
      assert lines == lines[..n] + [lines[n]];
      if !lines[n].Other? {
        assert (PLACEHOLDER + lines[n].mod)[|PLACEHOLDER|..] == lines[n].mod;
        if PLACEHOLDER <= slot { assert slot == PLACEHOLDER + slot[|PLACEHOLDER|..]; }
      }
    }
  }

  // The merge fails exactly when another line looks like the placeholder of a module that is not
  // imported.
  lemma MergeFailsIff(lines: seq<Line>)
    ensures Merge(lines).None? <==>
      exists mod :: Other("__IMPORT_PLACEHOLDER__" + mod) in lines && mod !in Modules(lines)
  {
    MergeIsFill(lines);
    forall slot ensures slot in Slots(lines) <==>
        Other(slot) in lines || (PLACEHOLDER <= slot && slot[|PLACEHOLDER|..] in Modules(lines))
    {
      SlotsAre(lines, slot);
    }
    hide Modules, Slots, Merge, Fill;
    if mod :| Other(PLACEHOLDER + mod) in lines && mod !in Modules(lines) {
      PlaceOfMark(mod);
      assert PLACEHOLDER + mod in Slots(lines);
    }
    if slot :| slot in Slots(lines) && PlaceOf(slot).Import? && PlaceOf(slot).mod !in Modules(lines) {
      assert slot == PLACEHOLDER + PlaceOf(slot).mod;
    }
  }

  lemma {:induction false} OutlineIsFaithful(lines: seq<Line>)
    ensures Singular(Outline(lines))
    ensures forall mod :: Import(mod) in Outline(lines) <==> mod in Modules(lines)
    ensures forall text :: Text(text) in Outline(lines) <==> Other(text) in lines
  {
    hide Modules;
    if lines == [] {
      NoModules(lines);
    } else {
      var n := |lines| - 1;
      assert lines[..n + 1] == lines;
      ModulesOfNext(lines, n);
      OutlineIsFaithful(lines[..n]);
      assert lines == lines[..n] + [lines[n]];
    }
  }

  lemma NoModules(lines: seq<Line>)
    requires lines == []
    ensures Modules(lines) == {}
  {
  }

  // ---------------------------------------------------------------------------------------------
  // Duplicates

  lemma {:induction false} DedupIsSet<T>(s: seq<T>)
    ensures NoDup(Dedup(s)) && forall x :: x in Dedup(s) <==> x in s
  {
    if s == [] {
    } else {
      DedupIsSet(s[..|s| - 1]);
      assert s == s[..|s| - 1] + [s[|s| - 1]];
    }
  }

  lemma {:induction false} DedupShortens<T>(s: seq<T>)
    ensures |Dedup(s)| <= |s|
    ensures Dedup(s) == s <==> NoDup(s)
  {
    if s == [] {
    } else {
      var front, last := s[..|s| - 1], s[|s| - 1];
      DedupShortens(front);
      assert s == front + [last];
      if Dedup(s) == s { DedupIsSet(s); }
    }
  }

  // ---------------------------------------------------------------------------------------------
  // Bindings

  datatype Binding = Binding(mod: string, name: string, isType: bool)

  // A name of a value import: an inline `type X` binds X as a type.
  function NameBinding(mod: string, name: string): Binding {
    if TYPE <= name then Binding(mod, name[|TYPE|..], true) else Binding(mod, name, false)
  }

  ghost predicate NamesBind(typeNames: seq<string>, valueNames: seq<string>, b: Binding) {
    (b.isType && b.name in typeNames) || exists n :: n in valueNames && NameBinding(b.mod, n) == b
  }

  ghost predicate Binds(line: Line, b: Binding) {
    match line
    case Other(_) => false
    case TypeImport(names, mod) => b.mod == mod && NamesBind(names, [], b)
    case ValueImport(names, mod) => b.mod == mod && NamesBind([], names, b)
  }

  ghost predicate Bound(lines: seq<Line>, b: Binding) {
    exists i :: 0 <= i < |lines| && Binds(lines[i], b)
  }

  lemma {:induction false} BoundByNames(lines: seq<Line>, b: Binding)
    ensures Bound(lines, b) <==> NamesBind(TypeNames(lines, b.mod), ValueNames(lines, b.mod), b)
    ensures Bound(lines, b) ==> b.mod in Modules(lines)
  {
    if lines == [] {
    } else {
      var n := |lines| - 1;
      var front, last := lines[..n], lines[n];
      BoundByNames(front, b);
      assert Bound(lines, b) <==> Bound(front, b) || Binds(last, b) by {
        if Bound(front, b) {
          var i :| 0 <= i < n && Binds(front[i], b);
          assert Binds(lines[i], b);
        }
      }
      assert lines[..n + 1] == lines;
      ModulesOfNext(lines, n);
    }
  }

  lemma CombineBinds(typeNames: seq<string>, valueNames: seq<string>, b: Binding)
    ensures Binds(Combine(typeNames, valueNames, b.mod), b) <==> NamesBind(typeNames, valueNames, b)
  {
    hide Dedup;
    var types, values := Dedup(typeNames), Dedup(valueNames);
    DedupIsSet(typeNames);
    DedupIsSet(valueNames);
    if b.isType && b.name in types {
      var k :| 0 <= k < |types| && types[k] == b.name;
      assert Typed(types)[k] == TYPE + b.name && NameBinding(b.mod, TYPE + b.name) == b;
    }
    forall n | n in Typed(types) && NameBinding(b.mod, n) == b ensures b.isType && b.name in types {
      var k :| 0 <= k < |types| && Typed(types)[k] == n;
      assert n[|TYPE|..] == types[k];
    }
  }

  // ---------------------------------------------------------------------------------------------
  // Main results

  // Merging keeps the outline: every other line in order, and one import per module where the
  // module was first imported.
  lemma MergeKeepsOutline(lines: seq<Line>)
    requires Clean(lines)
    ensures Merge(lines) == Some(Fill(lines, Outline(lines)))
    ensures Singular(Outline(lines))
    ensures forall mod :: Import(mod) in Outline(lines) <==> mod in Modules(lines)
  {
    MergeFailsIff(lines);
    MergeIsFill(lines);
    CleanOutline(lines);
    OutlineIsFaithful(lines);
    hide Merge, Fill, Outline, Modules, Slots, PlacesOf, AllKnown;
    forall text | Other(text) in lines ensures !(PLACEHOLDER <= text) {
      var i :| 0 <= i < |lines| && lines[i] == Other(text);
    }
  }

  // When merging succeeds it preserves what is imported: module, name, and whether as a type.
  lemma MergeKeepsBindings(lines: seq<Line>, b: Binding)
    requires Merge(lines).Some?
    ensures Bound(Merge(lines).value, b) <==> Bound(lines, b)
  {
    MergeIsFill(lines);
    hide NamesBind, Binds, Combine, TypeNames, ValueNames, Merge, Slots, Outline, Modules, AllKnown;
    var slots, out := Slots(lines), Merge(lines).value;
    BoundByNames(lines, b);
    CombineBinds(TypeNames(lines, b.mod), ValueNames(lines, b.mod), b);
    if Bound(lines, b) {
      PlaceOfMark(b.mod);
      assert (PLACEHOLDER + b.mod)[|PLACEHOLDER|..] == b.mod;
      SlotsAre(lines, PLACEHOLDER + b.mod);
      var k :| 0 <= k < |slots| && slots[k] == PLACEHOLDER + b.mod;
      assert Binds(out[k], b);
    }
    if Bound(out, b) {
      var k :| 0 <= k < |out| && Binds(out[k], b);
      MergedImports(lines, PlaceOf(slots[k]));
      BindsItsModule(out[k], b);
      assert PlaceOf(slots[k]) == Import(b.mod);
    }
  }

  lemma BindsItsModule(line: Line, b: Binding)
    requires Binds(line, b)
    ensures !line.Other? && line.mod == b.mod
  {
  }

  // A name the module imports as a type both by `import type` and inline.
  ghost predicate TypedTwice(lines: seq<Line>, mod: string) {
    exists n :: n in TypeNames(lines, mod) && TYPE + n in ValueNames(lines, mod)
  }

  lemma {:induction false} OutlineOfFill(lines: seq<Line>, outline: seq<Place>)
    requires Singular(outline)
    ensures Outline(Fill(lines, outline)) == outline
    ensures forall mod :: mod in Modules(Fill(lines, outline)) <==> Import(mod) in outline
  {
    hide Modules, Combine;
    var out := Fill(lines, outline);
    if outline == [] {
      NoModules(out);
    } else {
      var n := |outline| - 1;
      OutlineOfFill(lines, outline[..n]);
      assert out[..n] == Fill(lines, outline[..n]) && out[..n + 1] == out;
      MergedImports(lines, outline[n]);
      ModulesOfNext(out, n);
      assert outline == outline[..n] + [outline[n]];
    }
  }

  lemma {:induction false} NamesOfFill(lines: seq<Line>, outline: seq<Place>, mod: string)
    requires Singular(outline)
    ensures var m, here := Merged(lines, mod), Import(mod) in outline;
      && TypeNames(Fill(lines, outline), mod) == (if here && m.TypeImport? then m.names else [])
      && ValueNames(Fill(lines, outline), mod) == (if here && m.ValueImport? then m.names else [])
  {
    hide Merged, TypeNames, ValueNames, Slots, Modules;
    var out := Fill(lines, outline);
    if outline == [] {
      NothingYet(out);
      assert out[..0] == out;
    } else {
      var n := |outline| - 1;
      NamesOfFill(lines, outline[..n], mod);
      assert out[..n] == Fill(lines, outline[..n]) && out[..n + 1] == out;
      MergedImports(lines, outline[n]);
      NextLine(out, n);
      assert out[n] == LineAt(lines, outline[n]);
      hide Fill;
      assert outline == outline[..n] + [outline[n]];
      assert outline[n] == Import(mod) ==> Import(mod) !in outline[..n];
    }
  }

  lemma MergedImports(lines: seq<Line>, place: Place)
    ensures place.Import? ==> !Merged(lines, place.mod).Other? && Merged(lines, place.mod).mod == place.mod
  {
  }

  // Merging the combined import once more.
  lemma CombineAgain(typeNames: seq<string>, valueNames: seq<string>, mod: string)
    ensures var m := Combine(typeNames, valueNames, mod);
      (Combine(if m.TypeImport? then m.names else [], if m.ValueImport? then m.names else [], mod) == m)
      <==> !exists n :: n in typeNames && TYPE + n in valueNames
  {
    hide Dedup;
    var types, values := Dedup(typeNames), Dedup(valueNames);
    DedupIsSet(typeNames);
    DedupIsSet(valueNames);
    DedupShortens(types);
    DedupShortens(values);
    DedupShortens(values + Typed(types));
    DedupIsSet(values + Typed(types));
    DedupShortens<string>([]);
    assert NoDup(Typed(types)) by {
      forall i, j | 0 <= i < j < |types| ensures TYPE + types[i] != TYPE + types[j] {
        assert (TYPE + types[i])[|TYPE|..] == types[i] && (TYPE + types[j])[|TYPE|..] == types[j];
      }
    }
    if exists n :: n in typeNames && TYPE + n in valueNames {
      var n :| n in typeNames && TYPE + n in valueNames;
      var i :| 0 <= i < |values| && values[i] == TYPE + n;
      var j :| 0 <= j < |types| && types[j] == n;
      assert (values + Typed(types))[i] == (values + Typed(types))[|values| + j];
    } else {
      assert NoDup(values + Typed(types));
    }
  }

  // Without lines that look like placeholders, merging is idempotent exactly when no module imports
  // a name as a type in both ways.
  lemma CleanIdempotentIff(lines: seq<Line>)
    requires Clean(lines)
    ensures Merge(lines).Some?
    ensures Merge(Merge(lines).value) == Merge(lines) <==>
      forall mod :: mod in Modules(lines) ==> !TypedTwice(lines, mod)
  {
    hide Combine, TypeNames, ValueNames, Outline, Render, Slots;
    MergeKeepsOutline(lines);
    var outline, out := Outline(lines), Merge(lines).value;
    OutlineOfFill(lines, outline);
    CleanOutline(lines);
    FillIsClean(lines, Slots(lines));
    MergeKeepsOutline(out);
    assert Merge(out) == Some(Fill(out, outline));
    forall mod | mod in Modules(lines) ensures Merged(out, mod) == Merged(lines, mod) <==> !TypedTwice(lines, mod) {
      NamesOfFill(lines, outline, mod);
      CombineAgain(TypeNames(lines, mod), ValueNames(lines, mod), mod);
    }
    if Fill(out, outline) == out {
      forall mod | mod in Modules(lines) ensures Merged(out, mod) == Merged(lines, mod) {
        var k :| 0 <= k < |outline| && outline[k] == Import(mod);
        assert Fill(out, outline)[k] == out[k];
      }
    }
  }

  lemma FillIsClean(lines: seq<Line>, slots: seq<string>)
    ensures Clean(Fill(lines, PlacesOf(slots)))
  {
    hide Combine;
    var out := Fill(lines, PlacesOf(slots));
    forall i | 0 <= i < |out| && out[i].Other? ensures !(PLACEHOLDER <= out[i].text) {
      MergedImports(lines, PlaceOf(slots[i]));
    }
  }

  // ---------------------------------------------------------------------------------------------
  // The form of a merged import

  // What a line gives a module.
  lemma NamesOfLine(line: Line, mod: string)
    ensures TypeNames([line], mod) == if line.TypeImport? && line.mod == mod then line.names else []
    ensures ValueNames([line], mod) == if line.ValueImport? && line.mod == mod then line.names else []
  {
    assert [line][..0] == [];
  }

  // The names gathered for a module are those of its lines, one after the other.
  lemma {:induction false} NamesInTwo(a: seq<Line>, b: seq<Line>, mod: string)
    ensures TypeNames(a + b, mod) == TypeNames(a, mod) + TypeNames(b, mod)
    ensures ValueNames(a + b, mod) == ValueNames(a, mod) + ValueNames(b, mod)
    decreases |b|
  {
    if b == [] {
      assert a + b == a && TypeNames(a, mod) + [] == TypeNames(a, mod) && ValueNames(a, mod) + [] == ValueNames(a, mod);
    } else {
      hide *;
      var front, last := b[..|b| - 1], b[|b| - 1];
      assert b == front + [last];
      NamesInTwo(a, front, mod);
      NamesSnoc(front, last, mod);
      NamesSnoc(a + front, last, mod);
      Regroup(a, front, [last]);
      Regroup(TypeNames(a, mod), TypeNames(front, mod), TypeNames([last], mod));
      Regroup(ValueNames(a, mod), ValueNames(front, mod), ValueNames([last], mod));
    }
  }

  lemma NamesSnoc(front: seq<Line>, last: Line, mod: string)
    ensures TypeNames(front + [last], mod) == TypeNames(front, mod) + TypeNames([last], mod)
    ensures ValueNames(front + [last], mod) == ValueNames(front, mod) + ValueNames([last], mod)
  {
    assert (front + [last])[..|front|] == front;
    assert [last][..0] == [];
  }

  // The distinct elements of `s`, each where it first occurs.
  ghost predicate Firsts(r: seq<string>, s: seq<string>) {
    && NoDup(r) && (forall x :: x in r <==> x in s)
    && (forall i, j :: 0 <= i < j < |r| ==> Before(r[i], r[j], s))
  }

  ghost predicate Before(x: string, y: string, s: seq<string>) {
    exists k :: 0 <= k < |s| && s[k] == x && y !in s[..k]
  }

  lemma {:induction false} DedupIsFirsts(s: seq<string>)
    ensures Firsts(Dedup(s), s)
  {
    DedupIsSet(s);
    if s == [] {
    } else {
      var front, last := s[..|s| - 1], s[|s| - 1];
      DedupIsFirsts(front);
      DedupIsSet(front);
      var r, d := Dedup(s), Dedup(front);
      assert s == front + [last];
      hide Dedup;
      forall i, j | 0 <= i < j < |r| ensures Before(r[i], r[j], s) {
        if j < |d| {
          assert Before(d[i], d[j], front);
          var k :| 0 <= k < |front| && front[k] == d[i] && d[j] !in front[..k];
          assert s[k] == r[i] && s[..k] == front[..k];
        } else {
          assert d[i] in front && r[j] !in front;
          var k :| 0 <= k < |front| && front[k] == d[i];
          assert s[k] == r[i] && forall x :: x in s[..k] ==> x in front;
        }
      }
    }
  }

  // A merged import: with values, their names and then `type ` and each type name; without, a type
  // import; names in order of first occurrence.
  ghost predicate IsMerge(line: Line, typeNames: seq<string>, valueNames: seq<string>, mod: string) {
    exists types, values ::
      Firsts(types, typeNames) && Firsts(values, valueNames) && IsForm(line, types, values, mod)
  }

  predicate IsForm(line: Line, types: seq<string>, values: seq<string>, mod: string) {
    if values == [] then line == TypeImport(types, mod)
    else
      && line.ValueImport? && line.mod == mod && |line.names| == |values| + |types|
      && line.names[..|values|] == values
      && forall k :: 0 <= k < |types| ==> line.names[|values| + k] == "type " + types[k]
  }

  lemma CombineIsMerge(typeNames: seq<string>, valueNames: seq<string>, mod: string)
    ensures IsMerge(Combine(typeNames, valueNames, mod), typeNames, valueNames, mod)
  {
    hide Dedup, Firsts;
    DedupIsFirsts(typeNames);
    DedupIsFirsts(valueNames);
    var types, values := Dedup(typeNames), Dedup(valueNames);
    assert values + [] == values;
    assert IsForm(Combine(typeNames, valueNames, mod), types, values, mod);
  }

  // Every import of the result combines all the names its module is imported with.
  lemma MergedForm(lines: seq<Line>, i: nat)
    requires Merge(lines).Some? && i < |Merge(lines).value| && !Merge(lines).value[i].Other?
    ensures var line := Merge(lines).value[i];
      line.mod in Modules(lines) && IsMerge(line, TypeNames(lines, line.mod), ValueNames(lines, line.mod), line.mod)
  {
    MergeIsFill(lines);
    var slots := Slots(lines);
    var place := PlaceOf(slots[i]);
    assert slots[i] in slots;
    MergedImports(lines, place);
    hide Merge, Combine, IsMerge, Slots, Modules;
    CombineIsMerge(TypeNames(lines, place.mod), ValueNames(lines, place.mod), place.mod);
  }

  // One import per module, each with distinct names, and no line that looks like a placeholder.
  ghost predicate Tidy(lines: seq<Line>) {
    && Clean(lines)
    && (forall i :: 0 <= i < |lines| && !lines[i].Other? ==> lines[i].names != [] && NoDup(lines[i].names))
    && (forall i, j :: 0 <= i < j < |lines| && !lines[i].Other? && !lines[j].Other? ==> lines[i].mod != lines[j].mod)
  }

  function PlaceOfLine(line: Line): Place {
    if line.Other? then Text(line.text) else Import(line.mod)
  }

  lemma TidyFront(lines: seq<Line>)
    requires Tidy(lines) && lines != []
    ensures Tidy(lines[..|lines| - 1])
    ensures !lines[|lines| - 1].Other? ==> lines[|lines| - 1].mod !in Modules(lines[..|lines| - 1])
  {
  }

  lemma {:induction false} TidyOutline(lines: seq<Line>)
    requires Tidy(lines)
    ensures |Outline(lines)| == |lines|
    ensures forall i :: 0 <= i < |lines| ==> Outline(lines)[i] == PlaceOfLine(lines[i])
    decreases |lines|
  {
    if lines == [] {
    } else {
      var front := lines[..|lines| - 1];
      TidyFront(lines);
      SlotsSnoc(lines);
      hide Tidy, Modules, Outline, Slots;
      TidyOutline(front);
      assert forall i :: 0 <= i < |front| ==> front[i] == lines[i];
    }
  }

  lemma TidyElsewhere(lines: seq<Line>, i: nat)
    requires Tidy(lines) && i < |lines| && !lines[i].Other?
    ensures lines[i].mod !in Modules(lines[..i]) && lines[i].mod !in Modules(lines[i + 1..])
  {
  }

  lemma TidyNames(lines: seq<Line>, i: nat)
    requires Tidy(lines) && i < |lines| && !lines[i].Other?
    ensures TypeNames(lines, lines[i].mod) == if lines[i].TypeImport? then lines[i].names else []
    ensures ValueNames(lines, lines[i].mod) == if lines[i].ValueImport? then lines[i].names else []
  {
    hide *;
    var a, line, b, mod := lines[..i], lines[i], lines[i + 1..], lines[i].mod;
    TidyElsewhere(lines, i);
    NamesOfUnseen(a, mod);
    NamesOfUnseen(b, mod);
    NamesOfLine(line, mod);
    SplitAt(lines, i);
    NamesInTwo(a + [line], b, mod);
    NamesInTwo(a, [line], mod);
  }

  // Merging leaves tidy lines as they are.
  lemma TidyIsKept(lines: seq<Line>)
    requires Tidy(lines)
    ensures Merge(lines) == Some(lines)
  {
    MergeKeepsOutline(lines);
    TidyOutline(lines);
    hide Merge, Outline, Modules, TypeNames, ValueNames, Dedup;
    var out := Fill(lines, Outline(lines));
    forall i | 0 <= i < |lines| ensures out[i] == lines[i] {
      if !lines[i].Other? {
        TidyNames(lines, i);
        DedupShortens(lines[i].names);
        DedupShortens<string>([]);
      }
    }
    assert out == lines;
  }

  // ---------------------------------------------------------------------------------------------
  // What the placeholder text costs

  function Others(lines: seq<Line>): seq<string> {
    if lines == [] then []
    else
      var last := lines[|lines| - 1];
      Others(lines[..|lines| - 1]) + if last.Other? then [last.text] else []
  }

  function Unmarked(texts: seq<string>): seq<string> {
    if texts == [] then []
    else
      var last := texts[|texts| - 1];
      Unmarked(texts[..|texts| - 1]) + if PLACEHOLDER <= last then [] else [last]
  }

  // How often a mark stands among the slots.
  lemma {:induction false} MarkCount(lines: seq<Line>, mod: string)
    ensures multiset(Slots(lines))[PLACEHOLDER + mod] ==
      multiset(Others(lines))[PLACEHOLDER + mod] + if mod in Modules(lines) then 1 else 0
    decreases |lines|
  {
    if lines == [] {
      NoModules(lines);
    } else {
      var n := |lines| - 1;
      MarkCount(lines[..n], mod);
      SlotsSnoc(lines);
      assert lines[..n + 1] == lines;
      ModulesOfNext(lines, n);
      OthersSnoc(lines);
      hide Modules, Slots, Outline, Others;
      if !lines[n].Other? { SameMark(lines[n].mod, mod); }
    }
  }

  lemma SameMark(a: string, b: string)
    ensures PLACEHOLDER + a == PLACEHOLDER + b ==> a == b
  {
    assert (PLACEHOLDER + a)[|PLACEHOLDER|..] == a && (PLACEHOLDER + b)[|PLACEHOLDER|..] == b;
  }

  lemma OthersSnoc(lines: seq<Line>)
    requires lines != []
    ensures Others(lines) ==
      Others(lines[..|lines| - 1]) + if lines[|lines| - 1].Other? then [lines[|lines| - 1].text] else []
  {
  }

  lemma {:induction false} TwoPlaces<T>(s: seq<T>, x: T) returns (i: nat, j: nat)
    requires multiset(s)[x] >= 2
    ensures i < j < |s| && s[i] == x && s[j] == x
    decreases |s|
  {
    var front, last := s[..|s| - 1], s[|s| - 1];
    assert s == front + [last];
    if last == x {
      assert x in front;
      i :| 0 <= i < |front| && front[i] == x;
      j := |s| - 1;
    } else {
      i, j := TwoPlaces(front, x);
    }
  }

  // A line that looks like the placeholder of an imported module becomes a second import of it, and
  // the next merge drops that.
  lemma MarkedIsMergedAway(lines: seq<Line>)
    requires Merge(lines).Some? && !Clean(lines)
    ensures Merge(Merge(lines).value) != Merge(lines)
  {
    hide Combine, Modules, Outline, Slots, Others, Render, AllKnown, TypeNames, ValueNames;
    MergeIsFill(lines);
    MergeFailsIff(lines);
    var slots, out := Slots(lines), Merge(lines).value;
    var k :| 0 <= k < |lines| && lines[k].Other? && PLACEHOLDER <= lines[k].text;
    var text := lines[k].text;
    var mod := text[|PLACEHOLDER|..];
    assert Other(text) in lines && text == PLACEHOLDER + mod;
    OthersAreLines(lines, text);
    MarkCount(lines, mod);
    var i, j := TwoPlaces(slots, text);
    PlaceOfMark(mod);
    MergedImports(lines, Import(mod));
    FillIsClean(lines, slots);
    MergeKeepsOutline(out);
    hide Merge, Merged;
    if Merge(out) == Some(out) {
      var outline := Outline(out);
      assert out[i] == out[j] == Merged(lines, mod);
      SamePlace(out, outline, i);
      SamePlace(out, outline, j);
    }
  }

  // Where filling an outline gives an import, the outline has its module.
  lemma SamePlace(lines: seq<Line>, outline: seq<Place>, i: nat)
    requires i < |outline| && !Fill(lines, outline)[i].Other?
    ensures outline[i] == Import(Fill(lines, outline)[i].mod)
  {
  }

  // Merging is idempotent exactly when no other line looks like a placeholder and no module imports
  // a name as a type in both ways.
  lemma MergeIsIdempotentIff(lines: seq<Line>)
    requires Merge(lines).Some?
    ensures Merge(Merge(lines).value) == Merge(lines) <==>
      Clean(lines) && forall mod :: mod in Modules(lines) ==> !TypedTwice(lines, mod)
  {
    if Clean(lines) { CleanIdempotentIff(lines); } else { MarkedIsMergedAway(lines); }
    hide Merge, TypedTwice, Modules;
  }

  lemma {:induction false} UnmarkedIsAll(texts: seq<string>)
    ensures |Unmarked(texts)| <= |texts|
    ensures Unmarked(texts) == texts <==> forall t :: t in texts ==> !(PLACEHOLDER <= t)
  {
    if texts == [] {
    } else {
      var front, last := texts[..|texts| - 1], texts[|texts| - 1];
      UnmarkedIsAll(front);
      assert texts == front + [last];
      assert forall t :: t in texts <==> t in front || t == last;
      if PLACEHOLDER <= last {
        assert last in texts && Unmarked(texts) == Unmarked(front);
      } else {
        assert Unmarked(texts) == Unmarked(front) + [last];
        assert Unmarked(texts) == texts <==> Unmarked(front) == front by {
          if Unmarked(texts) == texts { assert Unmarked(front) == texts[..|texts| - 1]; }
        }
      }
    }
  }

  lemma {:induction false} UnmarkedSlots(lines: seq<Line>)
    ensures Unmarked(Slots(lines)) == Unmarked(Others(lines))
  {
    hide Modules;
    if lines == [] {
    } else {
      var front, last := lines[..|lines| - 1], lines[|lines| - 1];
      UnmarkedSlots(front);
      var slots, others := Slots(front), Others(front);
      if last.Other? {
        assert (slots + [last.text])[..|slots|] == slots && (others + [last.text])[..|others|] == others;
      } else {
        assert Others(lines) == others;
        var mark := PLACEHOLDER + last.mod;
        assert PLACEHOLDER <= mark && (slots + [mark])[..|slots|] == slots;
        assert slots + [] == slots;
      }
    }
  }

  lemma {:induction false} RenderedOthers(all: seq<Line>, slots: seq<string>)
    requires Render(all, slots).Some?
    ensures Others(Render(all, slots).value) == Unmarked(slots)
  {
    hide Modules, TypeNames, ValueNames, Dedup;
    if slots == [] {
    } else {
      var front := slots[..|slots| - 1];
      RenderedOthers(all, front);
      var done, out := Render(all, front).value, Render(all, slots).value;
      assert out[..|out| - 1] == done;
    }
  }

  lemma {:induction false} OthersAreLines(lines: seq<Line>, text: string)
    ensures text in Others(lines) <==> Other(text) in lines
  {
    if lines == [] {
    } else {
      OthersAreLines(lines[..|lines| - 1], text);
      assert lines == lines[..|lines| - 1] + [lines[|lines| - 1]];
    }
  }

  // The other lines survive in order exactly when none of them starts with the placeholder text;
  // otherwise the function fails, or replaces such a line by an import.
  lemma OthersSurviveIffClean(lines: seq<Line>)
    ensures Merge(lines).Some? && Others(Merge(lines).value) == Others(lines) <==> Clean(lines)
  {
    forall text ensures text in Others(lines) <==> Other(text) in lines { OthersAreLines(lines, text); }
    UnmarkedIsAll(Others(lines));
    UnmarkedSlots(lines);
    if Clean(lines) { MergeKeepsOutline(lines); }
    if Merge(lines).Some? { RenderedOthers(lines, Slots(lines)); }
  }
}
