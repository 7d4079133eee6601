/**
 * `tree_fingerprint` of scripts/fumie-debug-package-state.py: the bytes fed to the hash for a
 * directory tree. Paths are byte strings; the hash itself is not part of this model.
 */
module TreeFingerprint {
  import opened Prelude

  type Bytes = seq<byte>
  type Name = seq<byte>

  // A directory holds its entries in the order the operating system lists them. `toDir` says that
  // a symbolic link points at a directory, which makes the walk count it among the directories.
  datatype Node =
    | File(mode: nat, content: Bytes)
    | Link(mode: nat, target: Bytes, toDir: bool)
    | Other(mode: nat)
    | Dir(mode: nat, listing: seq<Item>)
  datatype Item = Item(name: Name, node: Node)

  // What the stream says about one path.
  datatype Kind = FileKind(content: Bytes) | LinkKind(target: Bytes) | DirKind | OtherKind
  datatype Meta = Meta(mode: nat, kind: Kind)
  datatype Entry = Entry(path: seq<Name>, meta: Meta)

  const SLASH: byte := 47

  predicate ValidName(n: Name) {
    n != [] && 0 !in n && SLASH !in n
  }

  ghost predicate ValidList(listing: seq<Item>)
    decreases listing, 0
  {
    && (forall i :: 0 <= i < |listing| ==> ValidName(listing[i].name) && ValidNode(listing[i].node))
    && (forall i, j :: 0 <= i < j < |listing| ==> listing[i].name != listing[j].name)
  }

  ghost predicate ValidNode(node: Node)
    decreases node, 1
  {
    node.mode < 0x1000 && (node.Link? ==> 0 !in node.target) && (node.Dir? ==> ValidList(node.listing))
  }

  function MetaOf(node: Node): Meta {
    Meta(node.mode,
         match node
         case File(_, content) => FileKind(content)
         case Link(_, target, _) => LinkKind(target)
         case Dir(_, _) => DirKind
         case Other(_) => OtherKind)
  }

  // ---------------------------------------------------------------------------------------------
  // Sorting names

  predicate Less(a: Name, b: Name) {
    b != [] && (a == [] || a[0] < b[0] || (a[0] == b[0] && Less(a[1..], b[1..])))
  }

  // Byte-wise lexicographic order: at the first difference the lesser byte, or the end, is less.
  lemma {:induction false} LessIsLexicographic(a: Name, b: Name)
    ensures Less(a, b) <==>
      exists k :: 0 <= k <= |a| && k < |b| && a[..k] == b[..k] && (k == |a| || a[k] < b[k])
  {
    if a == [] || b == [] {
      if b != [] { assert a[..0] == b[..0]; }
    } else {
      LessIsLexicographic(a[1..], b[1..]);
      if Less(a, b) {
        if a[0] < b[0] {
          assert a[..0] == b[..0];
        } else {
          var j :| 0 <= j <= |a[1..]| && j < |b[1..]| && a[1..][..j] == b[1..][..j] &&
            (j == |a[1..]| || a[1..][j] < b[1..][j]);
          assert a[..j + 1] == [a[0]] + a[1..][..j] && b[..j + 1] == [b[0]] + b[1..][..j];
        }
      }
      if k :| 0 <= k <= |a| && k < |b| && a[..k] == b[..k] && (k == |a| || a[k] < b[k]) {
        if k > 0 {
          assert a[0] == a[..k][0] && b[0] == b[..k][0];
          assert a[1..][..k - 1] == a[..k][1..] && b[1..][..k - 1] == b[..k][1..];
        }
      }
    }
  }

  lemma {:induction false} LessIsTotal(a: Name, b: Name)
    ensures Less(a, b) || a == b || Less(b, a)
    ensures !(Less(a, b) && Less(b, a)) && !Less(a, a)
  {
    if a != [] && b != [] {
      LessIsTotal(a[1..], b[1..]);
      assert a == [a[0]] + a[1..] && b == [b[0]] + b[1..];
    }
    if a == [] {
    } else {
      LessIsTotal(a[1..], a[1..]);
    }
  }

  lemma {:induction false} LessIsTransitive(a: Name, b: Name, c: Name)
    requires Less(a, b) && Less(b, c)
    ensures Less(a, c)
  {
    if a != [] && a[0] == b[0] == c[0] { LessIsTransitive(a[1..], b[1..], c[1..]); }
  }

  function Size(items: seq<Item>): nat
    decreases items, 0
  {
    if items == [] then 0 else 1 + SizeOf(items[0].node) + Size(items[1..])
  }

  function SizeOf(node: Node): nat
    decreases node, 1
  {
    if node.Dir? then Size(node.listing) else 0
  }

  function Insert(item: Item, items: seq<Item>): (r: seq<Item>)
    ensures multiset(r) == multiset(items) + multiset{item}
    ensures Size(r) == Size(items) + 1 + SizeOf(item.node)
  {
    if items == [] || Less(item.name, items[0].name) then [item] + items
    else
      assert items == [items[0]] + items[1..];
      [items[0]] + Insert(item, items[1..])
  }

  function Sort(items: seq<Item>): (r: seq<Item>)
    ensures multiset(r) == multiset(items) && Size(r) == Size(items)
  {
    if items == [] then []
    else
      assert items == [items[0]] + items[1..];
      Insert(items[0], Sort(items[1..]))
  }

  predicate CountsAsDir(item: Item) {
    item.node.Dir? || (item.node.Link? && item.node.toDir)
  }

  // The walk's `dirnames` (with `dirs`) or `filenames`, in listing order.
  function Pick(listing: seq<Item>, dirs: bool): (r: seq<Item>)
    ensures Size(r) <= Size(listing)
    ensures forall it :: it in r <==> it in listing && CountsAsDir(it) == dirs
  {
    if listing == [] then []
    else if CountsAsDir(listing[0]) == dirs then [listing[0]] + Pick(listing[1..], dirs)
    else Pick(listing[1..], dirs)
  }

  // ---------------------------------------------------------------------------------------------
  // The walk

  function Visit(prefix: seq<Name>, items: seq<Item>): seq<Entry> {
    seq(|items|, i requires 0 <= i < |items| => Entry(prefix + [items[i].name], MetaOf(items[i].node)))
  }

  function Walk(prefix: seq<Name>, listing: seq<Item>): seq<Entry>
    decreases Size(listing), 1, 0
  {
    var dirs, files := Sort(Pick(listing, true)), Sort(Pick(listing, false));
    Visit(prefix, dirs + files) + WalkInto(prefix, dirs)
  }

  // Links to directories are listed but not followed.
  function WalkInto(prefix: seq<Name>, dirs: seq<Item>): seq<Entry>
    decreases Size(dirs), 0, |dirs|
  {
    if dirs == [] then []
    else
      assert Size(dirs) == 1 + SizeOf(dirs[0].node) + Size(dirs[1..]);
      (if dirs[0].node.Dir? then Walk(prefix + [dirs[0].name], dirs[0].node.listing) else [])
      + WalkInto(prefix, dirs[1..])
  }

  // ---------------------------------------------------------------------------------------------
  // The stream

  function Join(path: seq<Name>): Bytes
    requires path != []
  {
    if |path| == 1 then path[0] else path[0] + [SLASH] + Join(path[1..])
  }

  function Octal(mode: nat): Bytes
    requires mode < 0x1000
  {
    [48 + mode / 8 / 8 / 8, 48 + mode / 8 / 8 % 8, 48 + mode / 8 % 8, 48 + mode % 8]
  }

  function Decimal(n: nat): (s: Bytes)
    ensures s != [] && forall i :: 0 <= i < |s| ==> 48 <= s[i] < 58
  {
    if n < 10 then [48 + n] else Decimal(n / 10) + [48 + n % 10]
  }

  predicate ValidEntry(e: Entry) {
    && e.path != [] && (forall i :: 0 <= i < |e.path| ==> ValidName(e.path[i]))
    && e.meta.mode < 0x1000 && (e.meta.kind.LinkKind? ==> 0 !in e.meta.kind.target)
  }

  function KindBytes(kind: Kind): Bytes {
    match kind
    case LinkKind(target) => [76, 0] + target + [0]
    case FileKind(content) => [70, 0] + Decimal(|content|) + [0] + content
    case DirKind => [68, 0]
    case OtherKind => [79, 0]
  }

  function Emit(e: Entry): (r: Bytes)
    requires ValidEntry(e)
    ensures r != []
  {
    Join(e.path) + [0] + Octal(e.meta.mode) + [0] + KindBytes(e.meta.kind)
  }

  ghost predicate AllValid(entries: seq<Entry>) {
    forall i :: 0 <= i < |entries| ==> ValidEntry(entries[i])
  }

  function EmitAll(entries: seq<Entry>): Bytes
    requires AllValid(entries)
  {
    if entries == [] then [] else Emit(entries[0]) + EmitAll(entries[1..])
  }

  // ---------------------------------------------------------------------------------------------
  // A decoder

  // The bytes before the first NUL, and those after it.
  function TakeField(s: Bytes): (r: Option<(Bytes, Bytes)>)
    ensures r.Some? ==> |r.value.1| < |s|
  {
    if s == [] then None
    else if s[0] == 0 then Some(([], s[1..]))
    else
      match TakeField(s[1..])
      case None => None
      case Some((field, rest)) => Some(([s[0]] + field, rest))
  }

  lemma {:induction false} FieldEnds(field: Bytes, rest: Bytes)
    requires 0 !in field
    ensures TakeField(field + [0] + rest) == Some((field, rest))
  {
    var s := field + [0] + rest;
    if field == [] {
      assert s[1..] == rest;
    } else {
      assert s[0] == field[0] && s[1..] == field[1..] + [0] + rest;
      FieldEnds(field[1..], rest);
      assert field == [field[0]] + field[1..];
    }
  }

  function Split(s: Bytes): seq<Name> {
    if s == [] then [[]]
    else
      var rest := Split(s[1..]);
      if s[0] == SLASH then [[]] + rest
      else if rest == [] then [[s[0]]] else [[s[0]] + rest[0]] + rest[1..]
  }

  function FromOctal(s: Bytes): int {
    if |s| != 4 then -1
    else (((s[0] as int - 48) * 8 + s[1] as int - 48) * 8 + s[2] as int - 48) * 8 + s[3] as int - 48
  }

  function FromDecimal(s: Bytes): int {
    if s == [] then 0 else FromDecimal(s[..|s| - 1]) * 10 + s[|s| - 1] as int - 48
  }

  function ParseKind(s: Bytes): (r: Option<(Kind, Bytes)>)
    ensures r.Some? ==> |r.value.1| < |s|
  {
    match TakeField(s) case None => None case Some((tag, s1)) =>
    if tag == [68] then Some((DirKind, s1))
    else if tag == [79] then Some((OtherKind, s1))
    else
      match TakeField(s1) case None => None case Some((field, s2)) =>
      if tag == [76] then Some((LinkKind(field), s2))
      else if tag == [70] && 0 <= FromDecimal(field) <= |s2| then
        Some((FileKind(s2[..FromDecimal(field)]), s2[FromDecimal(field)..]))
      else None
  }

  function ParseEntry(s: Bytes): (r: Option<(Entry, Bytes)>)
    ensures r.Some? ==> |r.value.1| < |s|
  {
    match TakeField(s) case None => None case Some((path, s1)) =>
    match TakeField(s1) case None => None case Some((mode, s2)) =>
    match ParseKind(s2) case None => None case Some((kind, s3)) =>
    if FromOctal(mode) < 0 then None else Some((Entry(Split(path), Meta(FromOctal(mode), kind)), s3))
  }

  function Parse(s: Bytes): Option<seq<Entry>>
    decreases |s|
  {
    if s == [] then Some([])
    else
      match ParseEntry(s) case None => None case Some((e, rest)) =>
      match Parse(rest) case None => None case Some(more) => Some([e] + more)
  }

  lemma {:induction false} SplitName(name: Name)
    requires SLASH !in name
    ensures Split(name) == [name]
  {
    if name == [] {
    } else {
      SplitName(name[1..]);
      assert name == [name[0]] + name[1..];
    }
  }

  lemma {:induction false} SplitAtSlash(name: Name, rest: Bytes)
    requires SLASH !in name
    ensures Split(name + [SLASH] + rest) == [name] + Split(rest)
  {
    var s := name + [SLASH] + rest;
    if name == [] {
      assert s[1..] == rest;
    } else {
      assert s[0] == name[0] && s[1..] == name[1..] + [SLASH] + rest;
      SplitAtSlash(name[1..], rest);
      assert name == [name[0]] + name[1..];
    }
  }

  lemma {:induction false} SplitJoin(path: seq<Name>)
    requires path != [] && forall i :: 0 <= i < |path| ==> ValidName(path[i])
    ensures Split(Join(path)) == path && 0 !in Join(path)
  {
    if |path| == 1 {
      SplitName(path[0]);
    } else {
      SplitJoin(path[1..]);
      SplitAtSlash(path[0], Join(path[1..]));
      assert path == [path[0]] + path[1..];
    }
  }

  lemma {:induction false} DecimalRoundTrip(n: nat)
    ensures FromDecimal(Decimal(n)) == n
  {
    if n < 10 {
      assert Decimal(n)[..0] == [];
    } else {
      DecimalRoundTrip(n / 10);
      assert Decimal(n)[..|Decimal(n)| - 1] == Decimal(n / 10);
    }
  }

  lemma OctalRoundTrip(mode: nat)
    requires mode < 0x1000
    ensures FromOctal(Octal(mode)) == mode && 0 !in Octal(mode)
  {
  }

  lemma ParseFile(content: Bytes, rest: Bytes)
    ensures ParseKind(KindBytes(FileKind(content)) + rest) == Some((FileKind(content), rest))
  {
    hide TakeField, Decimal, FromDecimal;
    var size, tail := Decimal(|content|), content + rest;
    assert 0 !in size && FromDecimal(size) == |content| by { DecimalRoundTrip(|content|); }
    assert KindBytes(FileKind(content)) + rest == [70] + [0] + (size + [0] + tail);
    FieldEnds([70], size + [0] + tail);
    FieldEnds(size, tail);
    assert tail[..|content|] == content && tail[|content|..] == rest;
  }

  lemma ParseKindEmitted(kind: Kind, rest: Bytes)
    requires kind.LinkKind? ==> 0 !in kind.target
    ensures ParseKind(KindBytes(kind) + rest) == Some((kind, rest))
  {
    hide TakeField, Decimal, FromDecimal;
    var s := KindBytes(kind) + rest;
    match kind
    case FileKind(content) => ParseFile(content, rest);
    case DirKind =>
      assert s == [68] + [0] + rest;
      FieldEnds([68], rest);
    case OtherKind =>
      assert s == [79] + [0] + rest;
      FieldEnds([79], rest);
    case LinkKind(target) =>
      assert s == [76] + [0] + (target + [0] + rest);
      FieldEnds([76], target + [0] + rest);
      FieldEnds(target, rest);
  }

  lemma ParseEmitted(e: Entry, rest: Bytes)
    requires ValidEntry(e)
    ensures ParseEntry(Emit(e) + rest) == Some((e, rest))
  {
    hide Split, Join, Octal, FromOctal, KindBytes, TakeField, ParseKind;
    var path, mode, kind := Join(e.path), Octal(e.meta.mode), KindBytes(e.meta.kind);
    SplitJoin(e.path);
    OctalRoundTrip(e.meta.mode);
    assert Emit(e) + rest == path + [0] + (mode + [0] + (kind + rest));
    FieldEnds(path, mode + [0] + (kind + rest));
    FieldEnds(mode, kind + rest);
    ParseKindEmitted(e.meta.kind, rest);
  }

  // The stream is uniquely decodable: the decoder returns the exact entries.
  lemma {:induction false} ParseIsInverse(entries: seq<Entry>)
    requires AllValid(entries)
    ensures Parse(EmitAll(entries)) == Some(entries)
  {
    hide ParseEntry, Emit;
    if entries == [] {
    } else {
      ParseEmitted(entries[0], EmitAll(entries[1..]));
      ParseIsInverse(entries[1..]);
      assert [entries[0]] + entries[1..] == entries;
    }
  }

  // ---------------------------------------------------------------------------------------------
  // The walk lists exactly what is there

  function Find(listing: seq<Item>, name: Name): Option<Node> {
    if listing == [] then None
    else if listing[0].name == name then Some(listing[0].node)
    else Find(listing[1..], name)
  }

  // What is at a relative path, links not being followed.
  function NodeAt(listing: seq<Item>, path: seq<Name>): Option<Node>
    requires path != []
    decreases |path|
  {
    match Find(listing, path[0])
    case None => None
    case Some(node) =>
      if |path| == 1 then Some(node)
      else if node.Dir? then NodeAt(node.listing, path[1..])
      else None
  }

  // Nothing on either side, or the same kind of thing with the same mode and target or content.
  predicate Agree(x: Option<Node>, y: Option<Node>) {
    match (x, y)
    case (None, None) => true
    case (Some(File(m, c)), Some(File(n, d))) => m == n && c == d
    case (Some(Link(m, t, _)), Some(Link(n, u, _))) => m == n && t == u
    case (Some(Dir(m, _)), Some(Dir(n, _))) => m == n
    case (Some(Other(m)), Some(Other(n))) => m == n
    case _ => false
  }

  // The node's entry says its mode, its kind and its content or target.
  predicate Describes(meta: Meta, node: Node) {
    match node
    case File(mode, content) => meta == Meta(mode, FileKind(content))
    case Link(mode, target, _) => meta == Meta(mode, LinkKind(target))
    case Dir(mode, _) => meta == Meta(mode, DirKind)
    case Other(mode) => meta == Meta(mode, OtherKind)
  }

  lemma MetaDescribes(meta: Meta, node: Node)
    ensures meta == MetaOf(node) <==> Describes(meta, node)
  {
  }

  ghost predicate Distinct(items: seq<Item>) {
    forall i, j :: 0 <= i < j < |items| ==> items[i].name != items[j].name
  }

  lemma {:induction false} FindIsMember(listing: seq<Item>, item: Item)
    requires Distinct(listing)
    ensures item in listing <==> Find(listing, item.name) == Some(item.node)
  {
    if listing == [] {
    } else {
      FindIsMember(listing[1..], item);
      assert item in listing <==> item == listing[0] || item in listing[1..];
    }
  }

  lemma SortedMember(items: seq<Item>, item: Item)
    ensures item in Sort(items) <==> item in items
  {
    assert item in Sort(items) <==> item in multiset(Sort(items));
    assert item in items <==> item in multiset(items);
  }

  lemma WalkIntoStep(prefix: seq<Name>, dirs: seq<Item>)
    requires dirs != []
    ensures WalkInto(prefix, dirs) ==
      (if dirs[0].node.Dir? then Walk(prefix + [dirs[0].name], dirs[0].node.listing) else [])
      + WalkInto(prefix, dirs[1..])
  {
    hide Walk;
  }

  lemma {:induction false} InWalkInto(prefix: seq<Name>, dirs: seq<Item>, e: Entry)
    ensures e in WalkInto(prefix, dirs) <==>
      exists it :: it in dirs && it.node.Dir? && e in Walk(prefix + [it.name], it.node.listing)
    decreases |dirs|
  {
    if dirs == [] {
    } else {
      WalkIntoStep(prefix, dirs);
      hide Walk, WalkInto;
      InWalkInto(prefix, dirs[1..], e);
      assert forall it :: it in dirs <==> it == dirs[0] || it in dirs[1..];
    }
  }

  lemma InVisit(prefix: seq<Name>, items: seq<Item>, e: Entry)
    ensures e in Visit(prefix, items) <==> exists it :: it in items && e == Entry(prefix + [it.name], MetaOf(it.node))
  {
    var shown := Visit(prefix, items);
    if e in shown {
      var k :| 0 <= k < |shown| && shown[k] == e;
      assert items[k] in items;
    }
    forall it | it in items && e == Entry(prefix + [it.name], MetaOf(it.node)) ensures e in shown {
      var k :| 0 <= k < |items| && items[k] == it;
      assert shown[k] == e;
    }
  }

  // A path's entry is in the walk because it was just listed, or because it is below a directory.
  lemma InWalk(prefix: seq<Name>, listing: seq<Item>, e: Entry)
    ensures e in Walk(prefix, listing) <==>
      exists it :: it in listing &&
        (e == Entry(prefix + [it.name], MetaOf(it.node)) ||
         (it.node.Dir? && e in Walk(prefix + [it.name], it.node.listing)))
  {
    hide Visit, WalkInto, MetaOf, Sort, Pick;
    var dirs, files := Sort(Pick(listing, true)), Sort(Pick(listing, false));
    InVisit(prefix, dirs + files, e);
    InWalkInto(prefix, dirs, e);
    forall it: Item
      ensures it in listing <==> it in dirs + files
      ensures it.node.Dir? ==> (it in listing <==> it in dirs)
    {
      SortedMember(Pick(listing, true), it);
      SortedMember(Pick(listing, false), it);
    }
    assert Walk(prefix, listing) == Visit(prefix, dirs + files) + WalkInto(prefix, dirs);
  }

  // The walk below `prefix` has the entry `prefix + path` with `meta` exactly if that describes what
  // is at `path`.
  lemma {:induction false} WalkIsExact(prefix: seq<Name>, listing: seq<Item>, path: seq<Name>, meta: Meta)
    requires ValidList(listing) && path != []
    ensures Entry(prefix + path, meta) in Walk(prefix, listing) <==>
      NodeAt(listing, path).Some? && Describes(meta, NodeAt(listing, path).value)
    decreases |path|
  {
    hide Walk, WalkInto, Describes, MetaOf;
    var e := Entry(prefix + path, meta);
    InWalk(prefix, listing, e);
    forall it | it in listing
      ensures e == Entry(prefix + [it.name], MetaOf(it.node)) <==> path == [it.name] && Describes(meta, it.node)
    {
      MetaDescribes(meta, it.node);
      if e.path == prefix + [it.name] { assert path == e.path[|prefix|..] == [it.name]; }
    }
    forall it | it in listing && it.node.Dir?
      ensures e in Walk(prefix + [it.name], it.node.listing) <==>
        |path| > 1 && path[0] == it.name &&
        NodeAt(it.node.listing, path[1..]).Some? && Describes(meta, NodeAt(it.node.listing, path[1..]).value)
    {
      if e in Walk(prefix + [it.name], it.node.listing) {
        BelowPrefix(prefix + [it.name], it.node.listing, e);
        assert e.path[..|prefix| + 1][|prefix|] == it.name && e.path[|prefix|] == path[0];
      }
      if |path| > 1 && path[0] == it.name {
        assert prefix + [it.name] + path[1..] == prefix + path;
        WalkIsExact(prefix + [it.name], it.node.listing, path[1..], meta);
      }
    }
    var found := Find(listing, path[0]);
    forall it | it in listing && it.name == path[0] ensures found == Some(it.node) { FindIsMember(listing, it); }
    if found.Some? { FindIsMember(listing, Item(path[0], found.value)); }
  }

  // Everything in a walk is strictly below its prefix.
  lemma {:induction false} BelowPrefix(prefix: seq<Name>, listing: seq<Item>, e: Entry)
    requires e in Walk(prefix, listing)
    ensures |e.path| > |prefix| && e.path[..|prefix|] == prefix
    decreases Size(listing)
  {
    hide Walk, Size;
    InWalk(prefix, listing, e);
    var it :| it in listing && (e == Entry(prefix + [it.name], MetaOf(it.node)) ||
      (it.node.Dir? && e in Walk(prefix + [it.name], it.node.listing)));
    if e != Entry(prefix + [it.name], MetaOf(it.node)) {
      SmallerInside(listing, it);
      BelowPrefix(prefix + [it.name], it.node.listing, e);
      assert e.path[..|prefix|] == e.path[..|prefix| + 1][..|prefix|];
    }
  }

  lemma {:induction false} SmallerInside(listing: seq<Item>, it: Item)
    requires it in listing && it.node.Dir?
    ensures Size(it.node.listing) < Size(listing)
  {
    if it != listing[0] { SmallerInside(listing[1..], it); }
  }

  lemma {:induction false} WalkIsValid(prefix: seq<Name>, listing: seq<Item>)
    requires ValidList(listing) && forall i :: 0 <= i < |prefix| ==> ValidName(prefix[i])
    ensures AllValid(Walk(prefix, listing))
    decreases Size(listing)
  {
    hide Walk, WalkInto;
    forall e | e in Walk(prefix, listing) ensures ValidEntry(e) {
      InWalk(prefix, listing, e);
      var it :| it in listing && (e == Entry(prefix + [it.name], MetaOf(it.node)) ||
        (it.node.Dir? && e in Walk(prefix + [it.name], it.node.listing)));
      if e != Entry(prefix + [it.name], MetaOf(it.node)) {
        SmallerInside(listing, it);
        WalkIsValid(prefix + [it.name], it.node.listing);
      }
    }
  }

  // ---------------------------------------------------------------------------------------------
  // Main results

  ghost function Stream(root: seq<Item>): Bytes
    requires ValidList(root)
  {
    WalkIsValid([], root);
    EmitAll(Walk([], root))
  }

  // Trees with the same stream agree at every path: nothing there, or a file with the same mode and
  // content, a link with the same mode and target, a directory or another thing with the same mode.
  lemma StreamDeterminesTree(a: seq<Item>, b: seq<Item>, path: seq<Name>)
    requires ValidList(a) && ValidList(b) && Stream(a) == Stream(b) && path != []
    ensures Agree(NodeAt(a, path), NodeAt(b, path))
  {
    WalkIsValid([], a);
    WalkIsValid([], b);
    ParseIsInverse(Walk([], a));
    ParseIsInverse(Walk([], b));
    assert [] + path == path;
    var x, y := NodeAt(a, path), NodeAt(b, path);
    forall meta ensures (x.Some? && Describes(meta, x.value)) <==> (y.Some? && Describes(meta, y.value)) {
      WalkIsExact([], a, path, meta);
      WalkIsExact([], b, path, meta);
    }
    hide Walk, NodeAt, Stream, EmitAll, Parse, ValidList;
    SameDescription(x, y);
  }

  lemma SameDescription(x: Option<Node>, y: Option<Node>)
    requires forall meta :: (x.Some? && Describes(meta, x.value)) <==> (y.Some? && Describes(meta, y.value))
    ensures Agree(x, y)
  {
    if x.Some? { assert Describes(MetaOf(x.value), x.value); }
    if y.Some? { assert Describes(MetaOf(y.value), y.value); }
  }

  lemma OneFile(name: Name, mode: nat, content: Bytes)
    requires ValidName(name) && mode < 0x1000
    ensures var list := [Item(name, File(mode, content))];
      ValidList(list) && NodeAt(list, [name]) == Some(File(mode, content))
  {
    hide ValidName;
  }

  // So two files of the same name and mode with different contents have different streams.
  lemma ContentsMatter(name: Name, mode: nat, content: Bytes, content': Bytes)
    requires ValidName(name) && mode < 0x1000 && content != content'
    ensures ValidList([Item(name, File(mode, content))]) && ValidList([Item(name, File(mode, content'))])
    ensures Stream([Item(name, File(mode, content))]) != Stream([Item(name, File(mode, content'))])
  {
    hide Stream, ValidList, ValidName, NodeAt;
    OneFile(name, mode, content);
    OneFile(name, mode, content');
    if Stream([Item(name, File(mode, content))]) == Stream([Item(name, File(mode, content'))]) {
      StreamDeterminesTree([Item(name, File(mode, content))], [Item(name, File(mode, content'))], [name]);
    }
  }

  // ---------------------------------------------------------------------------------------------
  // The listing order does not matter

  ghost predicate Names(items: seq<Item>, n: Name) {
    exists it :: it in items && it.name == n
  }

  // The same tree, listed in another order at any depth.
  ghost predicate SameList(a: seq<Item>, b: seq<Item>)
    decreases a, 0
  {
    && (forall n :: Names(a, n) <==> Names(b, n))
    && (forall i, j :: 0 <= i < |a| && 0 <= j < |b| && a[i].name == b[j].name ==> SameNode(a[i].node, b[j].node))
  }

  ghost predicate SameNode(x: Node, y: Node)
    decreases x, 1
  {
    if x.Dir? && y.Dir? then x.mode == y.mode && SameList(x.listing, y.listing) else x == y
  }

  ghost predicate Sorted(items: seq<Item>) {
    forall i, j :: 0 <= i < j < |items| ==> Less(items[i].name, items[j].name)
  }

  lemma InsertMember(item: Item, items: seq<Item>, it: Item)
    ensures it in Insert(item, items) <==> it == item || it in items
  {
    hide Insert;
    assert it in Insert(item, items) <==> it in multiset(Insert(item, items));
    assert it in items <==> it in multiset(items);
  }

  lemma SortedCons(first: Item, rest: seq<Item>)
    requires Sorted(rest) && forall it :: it in rest ==> Less(first.name, it.name)
    ensures Sorted([first] + rest)
  {
    assert forall i :: 0 <= i < |rest| ==> rest[i] in rest;
    hide Less;
  }

  lemma {:induction false} InsertKeepsSorted(item: Item, items: seq<Item>)
    requires Sorted(items) && !Names(items, item.name)
    ensures Sorted(Insert(item, items))
  {
    if items != [] {
      var first, tail := items[0], items[1..];
      LessIsTotal(item.name, first.name);
      assert items == [first] + tail && first in items;
      assert forall it :: it in items <==> it == first || it in tail;
      hide Less;
      if Less(item.name, first.name) {
        forall it | it in items ensures Less(item.name, it.name) {
          if it != first { LessIsTransitive(item.name, first.name, it.name); }
        }
        SortedCons(item, items);
      } else {
        var rest := Insert(item, tail);
        InsertKeepsSorted(item, tail);
        forall it | it in rest ensures Less(first.name, it.name) { InsertMember(item, tail, it); }
        SortedCons(first, rest);
      }
    } else {
      assert Sorted([item]);
    }
  }

  lemma {:induction false} SortSorts(items: seq<Item>)
    requires Distinct(items)
    ensures Sorted(Sort(items))
  {
    if items == [] {
    } else {
      SortSorts(items[1..]);
      if Names(Sort(items[1..]), items[0].name) {
        var it :| it in Sort(items[1..]) && it.name == items[0].name;
        SortedMember(items[1..], it);
      }
      InsertKeepsSorted(items[0], Sort(items[1..]));
    }
  }

  // Two sorted lists with the same names have them at the same positions.
  lemma {:induction false} SortedNamesAgree(a: seq<Item>, b: seq<Item>)
    requires Sorted(a) && Sorted(b) && forall n :: Names(a, n) <==> Names(b, n)
    ensures |a| == |b| && forall i :: 0 <= i < |a| ==> a[i].name == b[i].name
  {
    if a == [] {
    } else {
      assert a[0] in a && Names(a, a[0].name);
    }
    if b == [] {
    } else {
      assert b[0] in b && Names(b, b[0].name);
    }
    if a != [] && b != [] {
      LeastIsFirst(a, b[0].name);
      LeastIsFirst(b, a[0].name);
      LessIsTotal(a[0].name, b[0].name);
      assert a[0].name == b[0].name;
      forall n ensures Names(a[1..], n) <==> Names(b[1..], n) {
        TailNames(a, n);
        TailNames(b, n);
      }
      SortedNamesAgree(a[1..], b[1..]);
    }
  }

  lemma LeastIsFirst(a: seq<Item>, n: Name)
    requires Sorted(a) && a != [] && Names(a, n)
    ensures n == a[0].name || Less(a[0].name, n)
  {
    var it :| it in a && it.name == n;
    var k :| 0 <= k < |a| && a[k] == it;
  }

  lemma TailNames(a: seq<Item>, n: Name)
    requires Sorted(a) && a != []
    ensures Names(a[1..], n) <==> Names(a, n) && n != a[0].name
  {
    LessIsTotal(a[0].name, a[0].name);
    if Names(a, n) && n != a[0].name {
      var it :| it in a && it.name == n;
      assert it in a[1..];
    }
    if Names(a[1..], n) {
      var it :| it in a[1..] && it.name == n;
      var k :| 0 <= k < |a[1..]| && a[1..][k] == it;
      assert a[k + 1] == it && Less(a[0].name, a[k + 1].name);
    }
  }

  lemma PickDistinct(listing: seq<Item>, dirs: bool)
    requires Distinct(listing)
    ensures Distinct(Pick(listing, dirs))
  {
    if listing != [] {
      PickDistinct(listing[1..], dirs);
      var rest := Pick(listing[1..], dirs);
      forall j | 0 <= j < |rest| ensures rest[j].name != listing[0].name { assert rest[j] in rest; }
    }
  }

  ghost predicate Alike(a: seq<Item>, b: seq<Item>) {
    |a| == |b| && forall i :: 0 <= i < |a| ==> a[i].name == b[i].name && SameNode(a[i].node, b[i].node)
  }

  lemma PickedAlike(a: seq<Item>, b: seq<Item>, dirs: bool)
    requires Distinct(a) && Distinct(b) && SameList(a, b)
    ensures Alike(Sort(Pick(a, dirs)), Sort(Pick(b, dirs)))
  {
    var s, t := Sort(Pick(a, dirs)), Sort(Pick(b, dirs));
    PickDistinct(a, dirs);
    PickDistinct(b, dirs);
    SortSorts(Pick(a, dirs));
    SortSorts(Pick(b, dirs));
    forall n ensures Names(s, n) <==> Names(t, n) {
      PickedNames(a, b, dirs, n);
    }
    SortedNamesAgree(s, t);
    forall i | 0 <= i < |s| ensures SameNode(s[i].node, t[i].node) {
      SortedMember(Pick(a, dirs), s[i]);
      SortedMember(Pick(b, dirs), t[i]);
    }
  }

  lemma PickedNames(a: seq<Item>, b: seq<Item>, dirs: bool, n: Name)
    requires Distinct(a) && Distinct(b) && SameList(a, b)
    ensures Names(Sort(Pick(a, dirs)), n) <==> Names(Sort(Pick(b, dirs)), n)
  {
    forall it ensures it in Sort(Pick(a, dirs)) <==> it in a && CountsAsDir(it) == dirs {
      SortedMember(Pick(a, dirs), it);
    }
    forall it ensures it in Sort(Pick(b, dirs)) <==> it in b && CountsAsDir(it) == dirs {
      SortedMember(Pick(b, dirs), it);
    }
    if Names(a, n) && Names(b, n) {
      var x :| x in a && x.name == n;
      var y :| y in b && y.name == n;
      assert SameNode(x.node, y.node);
    }
  }

  lemma VisitAlike(prefix: seq<Name>, a: seq<Item>, b: seq<Item>)
    requires Alike(a, b)
    ensures Visit(prefix, a) == Visit(prefix, b)
  {
  }

  lemma {:induction false} WalkIgnoresOrder(prefix: seq<Name>, a: seq<Item>, b: seq<Item>)
    requires ValidList(a) && ValidList(b) && SameList(a, b)
    ensures Walk(prefix, a) == Walk(prefix, b)
    decreases Size(a), 1, 0
  {
    hide Visit, WalkInto, Sort, Pick, SameNode, SameList;
    var dirs, files := Sort(Pick(a, true)), Sort(Pick(a, false));
    var dirs', files' := Sort(Pick(b, true)), Sort(Pick(b, false));
    PickedAlike(a, b, true);
    PickedAlike(a, b, false);
    forall it ensures (it in dirs ==> it in a) && (it in dirs' ==> it in b) {
      SortedMember(Pick(a, true), it);
      SortedMember(Pick(b, true), it);
    }
    WalkIntoIgnoresOrder(prefix, dirs, dirs');
    VisitAlike(prefix, dirs + files, dirs' + files');
  }

  lemma {:induction false} WalkIntoIgnoresOrder(prefix: seq<Name>, a: seq<Item>, b: seq<Item>)
    requires Alike(a, b)
    requires forall it :: it in a || it in b ==> ValidNode(it.node)
    ensures WalkInto(prefix, a) == WalkInto(prefix, b)
    decreases Size(a), 0, |a|
  {
    hide Walk;
    if a == [] {
    } else {
      assert a[0] in a && b[0] in b;
      assert Size(a) == 1 + SizeOf(a[0].node) + Size(a[1..]);
      if a[0].node.Dir? { WalkIgnoresOrder(prefix + [a[0].name], a[0].node.listing, b[0].node.listing); }
      assert forall it :: it in a[1..] || it in b[1..] ==> it in a || it in b;
      WalkIntoIgnoresOrder(prefix, a[1..], b[1..]);
    }
  }

  // Listing the same tree in another order gives the same stream.
  lemma StreamIgnoresOrder(a: seq<Item>, b: seq<Item>)
    requires ValidList(a) && ValidList(b) && SameList(a, b)
    ensures Stream(a) == Stream(b)
  {
    WalkIgnoresOrder([], a, b);
  }

  // ---------------------------------------------------------------------------------------------
  // The loop itself

  // A directory the walk still has to visit.
  datatype Visitee = Visitee(path: seq<Name>, listing: seq<Item>)

  function WalkPending(pending: seq<Visitee>): seq<Entry> {
    if pending == [] then [] else Walk(pending[0].path, pending[0].listing) + WalkPending(pending[1..])
  }

  function PendingSize(pending: seq<Visitee>): nat {
    if pending == [] then 0 else 1 + Size(pending[0].listing) + PendingSize(pending[1..])
  }

  function Subdirs(prefix: seq<Name>, dirs: seq<Item>): (r: seq<Visitee>)
    ensures PendingSize(r) <= Size(dirs)
  {
    if dirs == [] then []
    else if dirs[0].node.Dir? then [Visitee(prefix + [dirs[0].name], dirs[0].node.listing)] + Subdirs(prefix, dirs[1..])
    else Subdirs(prefix, dirs[1..])
  }

  lemma {:induction false} PendingInTwo(a: seq<Visitee>, b: seq<Visitee>)
    ensures WalkPending(a + b) == WalkPending(a) + WalkPending(b)
    ensures PendingSize(a + b) == PendingSize(a) + PendingSize(b)
  {
    hide Walk;
    if a == [] {
      assert a + b == b;
    } else {
      assert (a + b)[0] == a[0] && (a + b)[1..] == a[1..] + b;
      PendingInTwo(a[1..], b);
    }
  }

  lemma {:induction false} SubdirsAreWalked(prefix: seq<Name>, dirs: seq<Item>)
    ensures WalkPending(Subdirs(prefix, dirs)) == WalkInto(prefix, dirs)
    decreases |dirs|
  {
    hide Walk;
    if dirs == [] {
    } else {
      SubdirsAreWalked(prefix, dirs[1..]);
      if dirs[0].node.Dir? {
        var first := Visitee(prefix + [dirs[0].name], dirs[0].node.listing);
        assert ([first] + Subdirs(prefix, dirs[1..]))[1..] == Subdirs(prefix, dirs[1..]);
      }
    }
  }

  lemma {:induction false} EmitInTwo(a: seq<Entry>, b: seq<Entry>)
    requires AllValid(a) && AllValid(b)
    ensures EmitAll(a + b) == EmitAll(a) + EmitAll(b)
  {
    hide Emit, ValidEntry;
    if a == [] {
      assert a + b == b;
    } else {
      assert (a + b)[0] == a[0] && (a + b)[1..] == a[1..] + b;
      EmitInTwo(a[1..], b);
    }
  }

  lemma WalkUnfolds(prefix: seq<Name>, listing: seq<Item>)
    ensures var dirs, files := Sort(Pick(listing, true)), Sort(Pick(listing, false));
      Walk(prefix, listing) == Visit(prefix, dirs + files) + WalkInto(prefix, dirs)
  {
  }

  // One directory's names, directories first, after the `done` entries.
  method UpdateDigest(before: Bytes, ghost done: seq<Entry>, path: seq<Name>, names: seq<Item>) returns (digest: Bytes)
    requires AllValid(done) && AllValid(Visit(path, names)) && before == EmitAll(done)
    ensures AllValid(done + Visit(path, names)) && digest == EmitAll(done + Visit(path, names))
  {
    hide Emit, ValidEntry, MetaOf;
    ghost var here := Visit(path, names);
    digest := before;
    assert done + here[..0] == done;
    for i := 0 to |names|
      invariant AllValid(done + here[..i]) && digest == EmitAll(done + here[..i])
    {
      var e := Entry(path + [names[i].name], MetaOf(names[i].node));
      assert e == here[i] && done + here[..i + 1] == (done + here[..i]) + [e];
      EmitInTwo(done + here[..i], [e]);
      assert [e][1..] == [];
      digest := digest + Emit(e);
    }
    assert here[..|names|] == here;
  }

  lemma PendingStep(pending: seq<Visitee>)
    requires pending != []
    ensures WalkPending(pending) == Walk(pending[0].path, pending[0].listing) + WalkPending(pending[1..])
    ensures PendingSize(pending) == 1 + Size(pending[0].listing) + PendingSize(pending[1..])
  {
    hide Walk;
  }

  // Visiting the first pending directory yields its names, and its subdirectories are pending next.
  lemma VisitFirst(pending: seq<Visitee>)
    requires pending != []
    ensures var path, listing := pending[0].path, pending[0].listing;
      var dirs, files := Sort(Pick(listing, true)), Sort(Pick(listing, false));
      var next := Subdirs(path, dirs) + pending[1..];
      && WalkPending(pending) == Visit(path, dirs + files) + WalkPending(next)
      && PendingSize(next) < PendingSize(pending)
  {
    hide *;
    PendingStep(pending);
    var path, listing := pending[0].path, pending[0].listing;
    var dirs, files := Sort(Pick(listing, true)), Sort(Pick(listing, false));
    WalkUnfolds(path, listing);
    SubdirsAreWalked(path, dirs);
    PendingInTwo(Subdirs(path, dirs), pending[1..]);
    Regroup(Visit(path, dirs + files), WalkInto(path, dirs), WalkPending(pending[1..]));
  }

  lemma MoveOver(done: seq<Entry>, here: seq<Entry>, later: seq<Entry>)
    requires AllValid(done + (here + later))
    ensures (done + here) + later == done + (here + later) && AllValid(here)
  {
    assert forall i :: 0 <= i < |here| ==> here[i] == (done + (here + later))[|done| + i];
  }

  // Visits directories depth first, sorting each one's names in place before going on, and feeds
  // every entry to the digest.
  method Fingerprint(root: seq<Item>) returns (digest: Bytes)
    requires ValidList(root)
    ensures digest == Stream(root)
  {
    hide Emit, EmitAll, ValidEntry, Walk, WalkPending, Visit, Sort, Pick, PendingSize;
    WalkIsValid([], root);
    ghost var all, done := Walk([], root), [];
    var pending := [Visitee([], root)];
    assert pending[1..] == [];
    digest := [];
    assert digest == EmitAll(done) by { EmitNothing(); }
    WalkOfOne(root);
    while pending != []
      invariant done + WalkPending(pending) == all && AllValid(all)
      invariant AllValid(done) && digest == EmitAll(done)
      decreases PendingSize(pending)
    {
      VisitFirst(pending);
      var path, listing := pending[0].path, pending[0].listing;
      var dirnames, filenames := Sort(Pick(listing, true)), Sort(Pick(listing, false));
      MoveOver(done, Visit(path, dirnames + filenames), WalkPending(Subdirs(path, dirnames) + pending[1..]));
      digest := UpdateDigest(digest, done, path, dirnames + filenames);
      done := done + Visit(path, dirnames + filenames);
      pending := Subdirs(path, dirnames) + pending[1..];
    }
    EmitNothing();
    assert done == all;
  }

  lemma EmitNothing()
    ensures EmitAll([]) == [] && WalkPending([]) == []
  {
  }

  lemma WalkOfOne(root: seq<Item>)
    ensures WalkPending([Visitee([], root)]) == Walk([], root)
  {
    assert [Visitee([], root)][1..] == [];
  }
}
