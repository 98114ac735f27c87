/** `docscheck sync` writes the generated tests into a directory, `docscheck check` says whether that would change
    anything. */
module Docs {
  import opened Text
  import opened Generate
  import Sorting

  const SUPPORT_NAME: Text := "gen_support.rs"
  const AGGREGATE_NAME: Text := "gen_all.rs"
  const GEN: Text := "gen_"
  const RS: Text := ".rs"

  /** Only `gen_*.rs` files are the tool's own. */
  predicate IsGenerated(name: Text) {
    StartsWith(name, GEN) && EndsWith(name, RS)
  }

  datatype Generated = Generated(name: Text, contents: Text)

  type Files = map<Text, Text>

  // ----- what is generated -----

  /** A document: its path without the extension, the path as shown, and its blocks. */
  datatype Document = Document(stem: Text, shown: Text, blocks: seq<Block>)

  /** The continuation bytes of a character are not characters of their own. */
  predicate Continuation(c: Byte) {
    128 <= c as int < 192
  }

  /** One character for each character: alphanumerics stay, the rest become `_`. */
  function Squeezed(stem: Text): Text {
    if stem == [] then []
    else
      var front, c := Squeezed(stem[..|stem| - 1]), stem[|stem| - 1];
      if Alphanumeric(c) then front + [c] else if Continuation(c) then front else front + ['_']
  }

  function OutputName(stem: Text): Text {
    GEN + Trim(Squeezed(stem), '_') + RS
  }

  const HEAD: Text := "// @generated by `docscheck sync`"
  const FROM: Text := " from "

  /** The texts no property depends on: what a document's tests render to, and the aggregate's introduction. */
  datatype Texts = Texts(tests: (Text, seq<Block>) -> Text, introduction: Text)

  /** A document's file: the header, and whatever its tests render to. */
  function DocumentText(d: Document, texts: Texts): Text {
    PopBlank(HEAD + FROM + d.shown + texts.tests(d.shown, d.blocks))
  }

  /** What follows the head of the aggregate, and the text of one module declaration. */
  const DO_NOT_EDIT: Text := ". Do not edit by hand.\n\n"
  const PATH: Text := "#[path = \""
  const MOD: Text := "\"]\nmod "
  const CLOSE: Text := ";\n\n"

  function LowerAll(s: Text): (t: Text)
    ensures |t| == |s|
  {
    if s == [] then [] else LowerAll(s[..|s| - 1]) + [Lower(s[|s| - 1])]
  }

  function Stem(name: Text): Text {
    if EndsWith(name, RS) then name[..|name| - |RS|] else name
  }

  function ModuleBases(generated: seq<Generated>): (bases: seq<Text>)
    ensures |bases| == |generated|
    ensures forall k :: 0 <= k < |generated| ==> bases[k] == LowerAll(Stem(generated[k].name))
  {
    seq(|generated|, k requires 0 <= k < |generated| => LowerAll(Stem(generated[k].name)))
  }

  /** The module names of the aggregate, in file order. */
  function ModuleNames(generated: seq<Generated>): (modules: seq<Text>)
    ensures |modules| == |generated|
  {
    NamesFrom(ModuleBases(generated))
  }

  function Declarations(generated: seq<Generated>, modules: seq<Text>): Text
    requires |modules| == |generated|
  {
    if generated == [] then []
    else
      var n := |generated| - 1;
      Declarations(generated[..n], modules[..n]) + PATH + generated[n].name + MOD + modules[n] + CLOSE
  }

  function Aggregate(generated: seq<Generated>, introduction: Text): Text {
    PopBlank(HEAD + DO_NOT_EDIT + (introduction + Declarations(generated, ModuleNames(generated))))
  }

  predicate NameLe(a: Generated, b: Generated) {
    Le(a.name, b.name)
  }

  predicate AnyRunnable(blocks: seq<Block>) {
    exists k :: 0 <= k < |blocks| && blocks[k].runnable
  }

  function NamesOf(generated: seq<Generated>): set<Text> {
    set k | 0 <= k < |generated| :: generated[k].name
  }

  /** The documents' files: one for each output name, the first document's. */
  function Collected(documents: seq<Document>, texts: Texts): seq<Generated> {
    if documents == [] then []
    else
      var front, d := Collected(documents[..|documents| - 1], texts), documents[|documents| - 1];
      if !AnyRunnable(d.blocks) || OutputName(d.stem) in NamesOf(front) then front
      else front + [Generated(OutputName(d.stem), DocumentText(d, texts))]
  }

  function AllGenerated(documents: seq<Document>, texts: Texts): seq<Generated> {
    var sorted := Sorting.StableSort(NameLe, Collected(documents, texts));
    if sorted == [] then [] else sorted + [Generated(AGGREGATE_NAME, Aggregate(sorted, texts.introduction))]
  }

  // ----- what the directory should hold -----

  /** A generated file no document produces any more. */
  predicate Removable(name: Text, keep: set<Text>) {
    IsGenerated(name) && name != SUPPORT_NAME && name !in keep
  }

  function Cleaned(files: Files, keep: set<Text>): Files {
    map n | n in files && !Removable(n, keep) :: files[n]
  }

  function WriteEach(files: Files, generated: seq<Generated>): Files {
    if generated == [] then files
    else
      var last := generated[|generated| - 1];
      WriteEach(files, generated[..|generated| - 1])[last.name := last.contents]
  }

  function Written(files: Files, generated: seq<Generated>, support: Text): Files {
    WriteEach(Cleaned(files[SUPPORT_NAME := support], NamesOf(generated)), generated)
  }

  function OrEmpty(files: Option<Files>): Files {
    if files.Some? then files.value else map[]
  }

  predicate Matches(files: Option<Files>, name: Text, contents: Text) {
    files.Some? && name in files.value && files.value[name] == contents
  }

  /** A name the check reports. */
  predicate IsStale(files: Option<Files>, generated: seq<Generated>, support: Text, name: Text) {
    || (name == SUPPORT_NAME && !Matches(files, name, support))
    || (exists k :: 0 <= k < |generated| && generated[k].name == name && !Matches(files, name, generated[k].contents))
    || (files.Some? && name in files.value && Removable(name, NamesOf(generated)))
  }

  /** An output directory: missing, or its files by name. */
  class Directory {
    const support: Text
    var files: Option<Files>

    constructor (support: Text, files: Option<Files>)
      ensures this.support == support && this.files == files
    {
      this.support, this.files := support, files;
    }

    /** Write the support file, remove what is no longer generated, and write the rest. */
    method WriteAll(generated: seq<Generated>)
      modifies this
      ensures files == Some(Written(OrEmpty(old(files)), generated, support))
    {
      var now := OrEmpty(files);
      now := now[SUPPORT_NAME := support];
      var keep := NamesOf(generated);
      now := RemoveStale(now, keep);
      for k := 0 to |generated|
        invariant now == WriteEach(Cleaned(OrEmpty(old(files))[SUPPORT_NAME := support], keep), generated[..k])
      {
        Prefix(generated, k);
        now := now[generated[k].name := generated[k].contents];
      }
      WholePrefix(generated);
      files := Some(now);
    }

    /** The files that do not match what would be written, and the ones that would be removed. */
    method CheckFreshness(generated: seq<Generated>) returns (stale: seq<Text>)
      ensures forall n :: n in stale <==> IsStale(files, generated, support, n)
    {
      stale := if Matches(files, SUPPORT_NAME, support) then [] else [SUPPORT_NAME];
      for k := 0 to |generated|
        invariant forall n :: n in stale <==>
          (n == SUPPORT_NAME && !Matches(files, n, support))
          || exists j :: 0 <= j < k && generated[j].name == n && !Matches(files, n, generated[j].contents)
      {
        if !Matches(files, generated[k].name, generated[k].contents) {
          stale := stale + [generated[k].name];
        }
      }
      if files.Some? {
        var more := ListRemovable(files.value, NamesOf(generated));
        stale := stale + more;
      }
    }
  }

  /** Visit the entries in whatever order the directory lists them, and remove the ones that are ours and stale. */
  method RemoveStale(files: Files, keep: set<Text>) returns (now: Files)
    ensures now == Cleaned(files, keep)
  {
    now := files;
    var left := files.Keys;
    while left != {}
      invariant left <= files.Keys
      invariant now.Keys == set n | n in files && (n in left || !Removable(n, keep))
      invariant forall n :: n in now ==> now[n] == files[n]
      decreases |left|
    {
      var name :| name in left;
      left := left - {name};
      if Removable(name, keep) {
        now := now - {name};
      }
    }
  }

  method ListRemovable(files: Files, keep: set<Text>) returns (names: seq<Text>)
    ensures forall n :: n in names <==> n in files && Removable(n, keep)
  {
    names := [];
    var left := files.Keys;
    while left != {}
      invariant left <= files.Keys
      invariant forall n :: n in names <==> n in files && n !in left && Removable(n, keep)
      decreases |left|
    {
      var name :| name in left;
      left := left - {name};
      if Removable(name, keep) {
        names := names + [name];
      }
    }
  }

  // ----- generating -----

  lemma {:induction false} NamesOfSnoc(generated: seq<Generated>, g: Generated)
    ensures NamesOf(generated + [g]) == NamesOf(generated) + {g.name}
  {
    var all := generated + [g];
    assert all[|generated|] == g;
    forall n | n in NamesOf(generated) ensures n in NamesOf(all) {
      var k :| 0 <= k < |generated| && generated[k].name == n;
      assert all[k].name == n;
    }
  }

  lemma {:induction false} ModuleBasesStep(generated: seq<Generated>, k: nat)
    requires k < |generated|
    ensures ModuleNames(generated[..k + 1]) ==
            ModuleNames(generated[..k])
            + [UniqueName(LowerAll(Stem(generated[k].name)), Members(ModuleNames(generated[..k])))]
  {
    Prefix(generated, k);
    assert ModuleBases(generated[..k + 1]) == ModuleBases(generated[..k]) + [LowerAll(Stem(generated[k].name))];
    NamesSnoc(ModuleBases(generated[..k]), LowerAll(Stem(generated[k].name)));
  }

  lemma {:induction false} DeclarationsStep(generated: seq<Generated>, modules: seq<Text>, name: Text, k: nat)
    requires k < |generated| && |modules| == k
    ensures Declarations(generated[..k + 1], modules + [name]) ==
            Declarations(generated[..k], modules) + PATH + generated[k].name + MOD + name + CLOSE
  {
    Prefix(generated, k);
    assert (modules + [name])[..k] == modules;
  }

  /** The module list that makes every generated file part of one test target. */
  method BuildAggregate(generated: seq<Generated>, introduction: Text) returns (out: Text)
    ensures out == Aggregate(generated, introduction)
  {
    var lines: Text := [];
    var used: set<Text> := {};
    ghost var modules: seq<Text> := [];
    for k := 0 to |generated|
      invariant |modules| == k && modules == ModuleNames(generated[..k]) && used == Members(modules)
      invariant lines == Declarations(generated[..k], modules)
    {
      ModuleBasesStep(generated, k);
      var name := FindName(LowerAll(Stem(generated[k].name)), used);
      DeclarationsStep(generated, modules, name, k);
      MembersSnoc(modules, name);
      used := used + {name};
      modules := modules + [name];
      lines := lines + PATH + generated[k].name + MOD + name + CLOSE;
    }
    WholePrefix(generated);
    out := Pop(HEAD + DO_NOT_EDIT + (introduction + lines));
  }

  /** Generate the files of every document, sorted by name, and the aggregate. */
  method GenerateAll(documents: seq<Document>, texts: Texts) returns (generated: seq<Generated>)
    ensures generated == AllGenerated(documents, texts)
  {
    generated := [];
    var names: set<Text> := {};
    for k := 0 to |documents|
      invariant generated == Collected(documents[..k], texts) && names == NamesOf(generated)
    {
      Prefix(documents, k);
      var d := documents[k];
      if AnyRunnable(d.blocks) {
        var name := OutputName(d.stem);
        if name !in names {
          NamesOfSnoc(generated, Generated(name, DocumentText(d, texts)));
          names := names + {name};
          generated := generated + [Generated(name, DocumentText(d, texts))];
        }
      }
    }
    WholePrefix(documents);
    generated := Sorting.StableSort(NameLe, generated);
    if generated != [] {
      var aggregate := BuildAggregate(generated, texts.introduction);
      generated := generated + [Generated(AGGREGATE_NAME, aggregate)];
    }
  }

  /** Two modules of the aggregate never share a name. */
  lemma {:induction false} ModulesAreDistinct(generated: seq<Generated>, i: nat, j: nat)
    requires i < j < |generated|
    ensures ModuleNames(generated)[i] != ModuleNames(generated)[j]
  {
    NamesAreDistinct(ModuleBases(generated));
  }

  /** Two tests of a document never share a name. */
  lemma {:induction false} TestsAreDistinct(blocks: seq<Block>, i: nat, j: nat)
    requires i < j < |TestNames(blocks)|
    ensures TestNames(blocks)[i] != TestNames(blocks)[j]
  {
    NamesAreDistinct(Bases(Runnable(blocks)));
  }

  // ----- writing twice, and elsewhere -----

  /** The contents last written under a name. */
  function Last(generated: seq<Generated>, name: Text): Option<Text> {
    if generated == [] then None
    else
      var last := generated[|generated| - 1];
      if last.name == name then Some(last.contents) else Last(generated[..|generated| - 1], name)
  }

  lemma {:induction false} LastIs(generated: seq<Generated>, name: Text)
    ensures Last(generated, name).Some? <==> name in NamesOf(generated)
    ensures Last(generated, name).Some? ==> Generated(name, Last(generated, name).value) in generated
  {
    if generated != [] {
      var front, last := generated[..|generated| - 1], generated[|generated| - 1];
      assert generated == front + [last];
      NamesOfSnoc(front, last);
      LastIs(front, name);
    }
  }

  function Lookup(files: Files, name: Text): Option<Text> {
    if name in files then Some(files[name]) else None
  }

  lemma {:induction false} WriteEachAt(files: Files, generated: seq<Generated>, name: Text)
    ensures Lookup(WriteEach(files, generated), name) ==
            if Last(generated, name).Some? then Last(generated, name) else Lookup(files, name)
  {
    if generated != [] {
      WriteEachAt(files, generated[..|generated| - 1], name);
    }
  }

  /** What a sync leaves under a name. */
  lemma {:induction false} WrittenAt(files: Files, generated: seq<Generated>, support: Text, name: Text)
    ensures Lookup(Written(files, generated, support), name) ==
            if name in NamesOf(generated) then Last(generated, name)
            else if name == SUPPORT_NAME then Some(support)
            else if IsGenerated(name) then None
            else Lookup(files, name)
  {
    LastIs(generated, name);
    WriteEachAt(Cleaned(files[SUPPORT_NAME := support], NamesOf(generated)), generated, name);
  }

  lemma {:induction false} SameFiles(a: Files, b: Files)
    requires forall n :: Lookup(a, n) == Lookup(b, n)
    ensures a == b
  {
    forall n ensures n in a <==> n in b {
      assert Lookup(a, n) == Lookup(b, n);
    }
    forall n | n in a ensures a[n] == b[n] {
      assert Lookup(a, n) == Lookup(b, n);
    }
  }

  /** A second sync changes nothing. */
  lemma {:induction false} SyncIsIdempotent(files: Files, generated: seq<Generated>, support: Text)
    ensures Written(Written(files, generated, support), generated, support) == Written(files, generated, support)
  {
    var once := Written(files, generated, support);
    forall n ensures Lookup(Written(once, generated, support), n) == Lookup(once, n) {
      WrittenAt(files, generated, support, n);
      WrittenAt(once, generated, support, n);
    }
    SameFiles(Written(once, generated, support), once);
  }

  lemma {:induction false} OutputIsGenerated(stem: Text)
    ensures IsGenerated(OutputName(stem))
  {
    var middle := Trim(Squeezed(stem), '_');
    var name := GEN + middle + RS;
    assert name[..|GEN|] == GEN;
    assert name[|name| - |RS|..] == RS;
  }

  lemma {:induction false} FixedNames()
    ensures IsGenerated(SUPPORT_NAME) && IsGenerated(AGGREGATE_NAME) && SUPPORT_NAME != AGGREGATE_NAME
  {
    assert SUPPORT_NAME[..4] == GEN && SUPPORT_NAME[|SUPPORT_NAME| - 3..] == RS;
    assert AGGREGATE_NAME[..4] == GEN && AGGREGATE_NAME[|AGGREGATE_NAME| - 3..] == RS;
  }

  /** One generated file, and the document it comes from. */
  predicate ComesFrom(g: Generated, d: Document, texts: Texts) {
    AnyRunnable(d.blocks) && g == Generated(OutputName(d.stem), DocumentText(d, texts))
  }

  lemma {:induction false} CollectedFrom(documents: seq<Document>, texts: Texts)
    ensures forall g :: g in Collected(documents, texts) ==> exists d :: d in documents && ComesFrom(g, d, texts)
    ensures forall g, h ::
      g in Collected(documents, texts) && h in Collected(documents, texts) && g.name == h.name ==> g == h
    ensures forall d :: d in documents && AnyRunnable(d.blocks) ==>
      OutputName(d.stem) in NamesOf(Collected(documents, texts))
  {
    if documents != [] {
      var front, d := documents[..|documents| - 1], documents[|documents| - 1];
      assert documents == front + [d];
      CollectedFrom(front, texts);
      var before, g := Collected(front, texts), Generated(OutputName(d.stem), DocumentText(d, texts));
      if AnyRunnable(d.blocks) && OutputName(d.stem) !in NamesOf(before) {
        assert ComesFrom(g, d, texts);
        NamesOfSnoc(before, g);
        forall h | h in before ensures h.name != g.name {
          var k :| 0 <= k < |before| && before[k] == h;
          assert before[k].name in NamesOf(before);
        }
      }
    }
  }

  lemma {:induction false} MemberNames(generated: seq<Generated>, name: Text)
    ensures name in NamesOf(generated) <==> exists g :: g in generated && g.name == name
  {
    if name in NamesOf(generated) {
      var k :| 0 <= k < |generated| && generated[k].name == name;
      assert generated[k] in generated;
    }
  }

  lemma {:induction false} AllGeneratedHolds(documents: seq<Document>, texts: Texts, g: Generated)
    ensures
      var collected := Collected(documents, texts);
      g in AllGenerated(documents, texts) <==>
        g in collected
        || (collected != []
            && g == Generated(
              AGGREGATE_NAME, Aggregate(Sorting.StableSort(NameLe, collected), texts.introduction)))
  {
    var collected := Collected(documents, texts);
    Sorting.MemberOfPermutation(Sorting.StableSort(NameLe, collected), collected, g);
  }

  /** The name starts with `gen_` and ends with `.rs`. */
  predicate IsOurs(name: Text) {
    |name| >= 7 && name[..4] == ['g', 'e', 'n', '_'] && name[|name| - 3..] == ['.', 'r', 's']
  }

  lemma {:induction false} GeneratedIsOurs(name: Text)
    ensures IsGenerated(name) <==> IsOurs(name)
  {
    var gen: Text, rs: Text := GEN, RS;
    assert gen == ['g', 'e', 'n', '_'] && rs == ['.', 'r', 's'];
    if 4 <= |name| < 7 && name[..4] == gen {
      ShortIsNot(name);
    }
  }

  lemma {:induction false} ShortIsNot(name: Text)
    requires 4 <= |name| < 7 && name[..4] == ['g', 'e', 'n', '_']
    ensures name[|name| - 3..] != ['.', 'r', 's']
  {
    assert name[1] == name[..4][1] && name[2] == name[..4][2] && name[3] == name[..4][3];
    assert name[|name| - 3..][0] == name[|name| - 3];
  }

  lemma {:induction false} SupportIs()
    ensures SUPPORT_NAME == "gen_support.rs"
  {
  }

  /** The contents the last of the generated files of that name has. */
  predicate IsLast(generated: seq<Generated>, name: Text, contents: Text) {
    exists k :: 0 <= k < |generated| && generated[k] == Generated(name, contents)
                && forall j :: k < j < |generated| ==> generated[j].name != name
  }

  lemma {:induction false} LastIff(generated: seq<Generated>, name: Text, contents: Text)
    ensures Last(generated, name) == Some(contents) <==> IsLast(generated, name, contents)
  {
    if generated != [] {
      var n := |generated| - 1;
      LastIff(generated[..n], name, contents);
      assert forall k :: 0 <= k < n ==> generated[..n][k] == generated[k];
    }
  }

  /** What a sync leaves, name by name: a generated file as it was last generated; the support file; no other file that
      starts with `gen_` and ends with `.rs`; and every other file as it was. */
  lemma {:induction false} SyncLeaves(files: Files, generated: seq<Generated>, support: Text, name: Text)
    ensures
      var after := Written(files, generated, support);
      && (forall contents :: IsLast(generated, name, contents) ==> name in after && after[name] == contents)
      && ((forall k :: 0 <= k < |generated| ==> generated[k].name != name) ==>
            if name == "gen_support.rs" then name in after && after[name] == support
            else if IsOurs(name) then name !in after
            else Lookup(after, name) == Lookup(files, name))
  {
    WrittenAt(files, generated, support, name);
    LastIs(generated, name);
    GeneratedIsOurs(name);
    SupportIs();
    forall contents | IsLast(generated, name, contents) ensures Last(generated, name) == Some(contents) {
      LastIff(generated, name, contents);
    }
  }

  /** A sync never touches a file that does not start with `gen_` or does not end with `.rs`. */
  lemma {:induction false} SyncKeepsTheRest(
    documents: seq<Document>, texts: Texts, files: Files, support: Text, name: Text)
    requires |name| < 7 || name[..4] != ['g', 'e', 'n', '_'] || name[|name| - 3..] != ['.', 'r', 's']
    ensures Lookup(Written(files, AllGenerated(documents, texts), support), name) == Lookup(files, name)
  {
    GeneratedIsOurs(name);
    var generated := AllGenerated(documents, texts);
    WrittenAt(files, generated, support, name);
    FixedNames();
    MemberNames(generated, name);
    if g :| g in generated && g.name == name {
      AllGeneratedHolds(documents, texts, g);
      CollectedFrom(documents, texts);
      if g in Collected(documents, texts) {
        var d :| d in documents && ComesFrom(g, d, texts);
        OutputIsGenerated(d.stem);
      }
    }
  }

  // ----- names and contents, spelled out -----

  /** What the output name makes of one more byte of a document's path: a letter or a digit stays; any other character
      becomes one underscore, at its first byte. */
  lemma {:induction false} SqueezedSnoc(stem: Text, c: Byte)
    ensures Squeezed([]) == []
    ensures Squeezed(stem + [c]) == Squeezed(stem) +
      if 'a' <= c <= 'z' || 'A' <= c <= 'Z' || '0' <= c <= '9' then [c]
      else if 0x80 <= c as int <= 0xBF then []
      else ['_']
  {
    assert (stem + [c])[..|stem|] == stem;
    EmptyUnit(Squeezed(stem));
  }

  predicate OnlyUnderscores(s: Text) {
    forall k :: 0 <= k < |s| ==> s[k] == '_'
  }

  lemma {:induction false} TrimLeftIs(s: Text) returns (left: Text)
    ensures OnlyUnderscores(left) && s == left + TrimLeft(s, '_')
    ensures TrimLeft(s, '_') == [] || TrimLeft(s, '_')[0] != '_'
  {
    if s != [] && s[0] == '_' {
      var rest := TrimLeftIs(s[1..]);
      left := ['_'] + rest;
      assert s == ['_'] + s[1..];
    } else {
      left := [];
    }
  }

  lemma {:induction false} TrimRightIs(s: Text) returns (right: Text)
    ensures OnlyUnderscores(right) && s == TrimRight(s, '_') + right
    ensures TrimRight(s, '_') == [] || TrimRight(s, '_')[|TrimRight(s, '_')| - 1] != '_'
    ensures TrimRight(s, '_') <= s
  {
    if s != [] && s[|s| - 1] == '_' {
      var rest := TrimRightIs(s[..|s| - 1]);
      right := rest + ['_'];
      assert s == s[..|s| - 1] + ['_'];
    } else {
      right := [];
    }
  }

  /** The output name is `gen_`, the squeezed path without underscores at its ends, and `.rs`. */
  lemma {:induction false} OutputNameIs(stem: Text) returns (left: Text, middle: Text, right: Text)
    ensures OutputName(stem) == ['g', 'e', 'n', '_'] + middle + ['.', 'r', 's']
    ensures Squeezed(stem) == left + middle + right && OnlyUnderscores(left) && OnlyUnderscores(right)
    ensures middle != [] ==> middle[0] != '_' && middle[|middle| - 1] != '_'
  {
    var squeezed := Squeezed(stem);
    left := TrimLeftIs(squeezed);
    right := TrimRightIs(TrimLeft(squeezed, '_'));
    middle := Trim(squeezed, '_');
    var gen: Text, rs: Text := GEN, RS;
    assert gen == ['g', 'e', 'n', '_'] && rs == ['.', 'r', 's'];
    Associate(left, middle, right);
  }

  /** A name without its ending. */
  lemma {:induction false} StemIs(stem: Text)
    ensures Stem(stem + ['.', 'r', 's']) == stem
  {
    var rs: Text, name := RS, stem + ['.', 'r', 's'];
    assert rs == ['.', 'r', 's'] && name[|name| - 3..] == rs && name[..|name| - 3] == stem;
  }

  lemma {:induction false} LowerAllAt(s: Text, k: nat)
    requires k < |s|
    ensures LowerAll(s)[k] == if 'A' <= s[k] <= 'Z' then (s[k] as int + 32) as char else s[k]
  {
    var n := |s| - 1;
    if k < n {
      LowerAllAt(s[..n], k);
    }
  }

  /** What the aggregate declares for one more generated file: its path and, under the module's name, the module. */
  lemma {:induction false} DeclaredAs(generated: seq<Generated>, modules: seq<Text>, g: Generated, name: Text)
    requires |modules| == |generated|
    ensures Declarations([], []) == []
    ensures Declarations(generated + [g], modules + [name]) ==
            Declarations(generated, modules) + "#[path = \"" + g.name + "\"]\nmod " + name + ";\n\n"
  {
    assert (generated + [g])[..|generated|] == generated && (modules + [name])[..|modules|] == modules;
  }

  /** The module of one more file: its name without the ending, in lower case, unless an earlier module took it. */
  lemma {:induction false} ModuleOf(generated: seq<Generated>, g: Generated)
    ensures ModuleNames(generated + [g]) ==
            ModuleNames(generated) + [UniqueName(LowerAll(Stem(g.name)), Members(ModuleNames(generated)))]
  {
    var all := generated + [g];
    ModuleBasesStep(all, |generated|);
    assert all[..|generated|] == generated && all[..|generated| + 1] == all;
  }

  lemma {:induction false} KeepsOpening(opening: Text, rest: Text)
    requires opening != [] && opening[|opening| - 1] != '\n'
    ensures opening <= PopBlank(opening + rest)
  {
    var whole := opening + rest;
    PopKeeps(whole, |opening| - 1);
    assert PopBlank(whole)[..|opening|] == whole[..|opening|] == opening;
  }

  /** A document's file opens with a line that says it is generated, and from what. */
  lemma {:induction false} DocumentStarts(d: Document, texts: Texts)
    requires d.shown != [] && d.shown[|d.shown| - 1] != '\n'
    ensures "// @generated by `docscheck sync` from " + d.shown <= DocumentText(d, texts)
  {
    var head: Text, from: Text := HEAD, FROM;
    KeepsOpening(head + from + d.shown, texts.tests(d.shown, d.blocks));
  }

  // ----- which files are generated -----

  predicate Runs(d: Document) {
    exists k :: 0 <= k < |d.blocks| && d.blocks[k].runnable
  }

  /** The document has a test, and none of the documents before it that has one gives the same output name. */
  predicate IsFirst(documents: seq<Document>, k: nat) {
    && k < |documents| && Runs(documents[k])
    && forall j :: 0 <= j < k && Runs(documents[j]) ==> OutputName(documents[j].stem) != OutputName(documents[k].stem)
  }

  predicate IsFrom(documents: seq<Document>, texts: Texts, g: Generated, k: nat) {
    IsFirst(documents, k) && g == Generated(OutputName(documents[k].stem), DocumentText(documents[k], texts))
  }

  lemma {:induction false} CollectedNames(documents: seq<Document>, texts: Texts, name: Text)
    ensures name in NamesOf(Collected(documents, texts)) <==>
            exists k :: 0 <= k < |documents| && Runs(documents[k]) && OutputName(documents[k].stem) == name
  {
    if documents != [] {
      var n := |documents| - 1;
      var front, d := documents[..n], documents[n];
      CollectedNames(front, texts, name);
      assert forall k :: 0 <= k < n ==> front[k] == documents[k];
      NamesOfSnoc(Collected(front, texts), Generated(OutputName(d.stem), DocumentText(d, texts)));
    }
  }

  lemma {:induction false} IsFromFront(documents: seq<Document>, texts: Texts, g: Generated, k: nat, n: nat)
    requires k < n <= |documents|
    ensures IsFrom(documents, texts, g, k) <==> IsFrom(documents[..n], texts, g, k)
  {
    assert forall j :: 0 <= j < n ==> documents[..n][j] == documents[j];
  }

  /** One file for each output name: that of the first document with a test that gives the name. */
  lemma {:induction false} CollectedIff(documents: seq<Document>, texts: Texts, g: Generated)
    ensures g in Collected(documents, texts) <==> exists k: nat :: IsFrom(documents, texts, g, k)
  {
    if documents != [] {
      var n := |documents| - 1;
      var front, d := documents[..n], documents[n];
      CollectedIff(front, texts, g);
      CollectedNames(front, texts, OutputName(d.stem));
      assert forall j :: 0 <= j < n ==> front[j] == documents[j];
      forall k: nat | k < n ensures IsFrom(documents, texts, g, k) <==> IsFrom(front, texts, g, k) {
        IsFromFront(documents, texts, g, k, n);
      }
      assert IsFirst(documents, n) <==>
             AnyRunnable(d.blocks) && OutputName(d.stem) !in NamesOf(Collected(front, texts));
      assert IsFrom(documents, texts, g, n) <==>
             IsFirst(documents, n) && g == Generated(OutputName(d.stem), DocumentText(d, texts));
    }
  }

  /** What is generated of documents: in name order, one file for each output name, from the first document that gives
      it and has a test, and behind them, when there is any, the aggregate. */
  lemma {:induction false} GeneratedHolds(documents: seq<Document>, texts: Texts)
    ensures
      var all := AllGenerated(documents, texts);
      && (all == [] <==> forall k :: 0 <= k < |documents| ==> !Runs(documents[k]))
      && (all != [] ==>
            var files, last := all[..|all| - 1], all[|all| - 1];
            last == Generated("gen_all.rs", Aggregate(files, texts.introduction))
            && (forall g :: g in files <==> exists k: nat :: IsFrom(documents, texts, g, k))
            && (forall i, j {:trigger files[i], files[j]} :: 0 <= i < j < |files| ==> Le(files[i].name, files[j].name)))
  {
    var collected, all := Collected(documents, texts), AllGenerated(documents, texts);
    var sorted := Sorting.StableSort(NameLe, collected);
    NoneCollected(documents, texts);
    if all != [] {
      assert all[..|all| - 1] == sorted;
      NamesSort(collected);
      forall g ensures g in sorted <==> exists k: nat :: IsFrom(documents, texts, g, k) {
        CollectedIff(documents, texts, g);
        Sorting.MemberOfPermutation(sorted, collected, g);
      }
      forall i, j {:trigger sorted[i], sorted[j]} | 0 <= i < j < |sorted| ensures Le(sorted[i].name, sorted[j].name) {
        assert NameLe(sorted[i], sorted[j]);
      }
    }
  }

  lemma {:induction false} NoneCollected(documents: seq<Document>, texts: Texts)
    ensures Collected(documents, texts) == [] <==> forall k :: 0 <= k < |documents| ==> !Runs(documents[k])
  {
    if documents != [] {
      var n := |documents| - 1;
      NoneCollected(documents[..n], texts);
      assert forall k :: 0 <= k < n ==> documents[..n][k] == documents[k];
      assert Runs(documents[n]) <==> AnyRunnable(documents[n].blocks);
    }
  }

  lemma {:induction false} NamesSort(generated: seq<Generated>)
    ensures Sorting.SortedBy(NameLe, Sorting.StableSort(NameLe, generated))
  {
    forall a: Generated, b: Generated ensures NameLe(a, b) || NameLe(b, a) {
      LeTotal(a.name, b.name);
    }
    forall a: Generated, b: Generated, c: Generated | NameLe(a, b) && NameLe(b, c) ensures NameLe(a, c) {
      LeTransitive(a.name, b.name, c.name);
    }
    Sorting.StableSortSorts(NameLe, generated);
  }

  // ----- check against sync -----

  /** What a check reports: a file to be written that is missing or differs, the support file among them, and a file it
      would remove. */
  lemma {:induction false} StaleIff(files: Option<Files>, generated: seq<Generated>, support: Text, name: Text)
    ensures IsStale(files, generated, support, name) <==>
      || (name == "gen_support.rs" && (files.None? || Lookup(files.value, name) != Some(support)))
      || (exists k :: 0 <= k < |generated| && generated[k].name == name
                      && (files.None? || Lookup(files.value, name) != Some(generated[k].contents)))
      || (files.Some? && name in files.value && IsOurs(name) && name != "gen_support.rs"
          && forall k :: 0 <= k < |generated| ==> generated[k].name != name)
  {
    GeneratedIsOurs(name);
    SupportIs();
    assert name in NamesOf(generated) <==> exists k :: 0 <= k < |generated| && generated[k].name == name;
  }

  ghost predicate Fresh(files: Option<Files>, generated: seq<Generated>, support: Text) {
    forall n :: !IsStale(files, generated, support, n)
  }

  /** No name is given two contents. */
  predicate Consistent(generated: seq<Generated>, support: Text) {
    && (forall g, h :: g in generated && h in generated && g.name == h.name ==> g.contents == h.contents)
    && (forall g :: g in generated && g.name == SUPPORT_NAME ==> g.contents == support)
  }

  predicate IsFixed(files: Option<Files>, generated: seq<Generated>, support: Text) {
    files == Some(Written(OrEmpty(files), generated, support))
  }

  lemma {:induction false} FreshMatches(files: Option<Files>, generated: seq<Generated>, support: Text, g: Generated)
    requires Fresh(files, generated, support) && g in generated
    ensures Matches(files, g.name, g.contents)
  {
    var k :| 0 <= k < |generated| && generated[k] == g;
    assert !IsStale(files, generated, support, g.name);
  }

  lemma {:induction false} FreshIsFixed(files: Option<Files>, generated: seq<Generated>, support: Text)
    requires Fresh(files, generated, support)
    ensures IsFixed(files, generated, support) && Consistent(generated, support)
  {
    assert !IsStale(files, generated, support, SUPPORT_NAME);
    assert Matches(files, SUPPORT_NAME, support);
    forall g | g in generated ensures Matches(files, g.name, g.contents) {
      FreshMatches(files, generated, support, g);
    }
    forall n ensures Lookup(files.value, n) == Lookup(Written(files.value, generated, support), n) {
      WrittenAt(files.value, generated, support, n);
      LastIs(generated, n);
      assert !IsStale(files, generated, support, n);
    }
    SameFiles(files.value, Written(files.value, generated, support));
  }

  lemma {:induction false} FixedIsFresh(files: Option<Files>, generated: seq<Generated>, support: Text)
    requires IsFixed(files, generated, support) && Consistent(generated, support)
    ensures Fresh(files, generated, support)
  {
    forall n ensures !IsStale(files, generated, support, n) {
      WrittenAt(files.value, generated, support, n);
      LastIs(generated, n);
      forall k | 0 <= k < |generated| && generated[k].name == n ensures Matches(files, n, generated[k].contents) {
        assert generated[k] in generated;
        assert n in NamesOf(generated);
      }
    }
  }

  /** A check passes exactly when a sync would change nothing and no name is given two contents. */
  lemma {:induction false} CheckIff(files: Option<Files>, generated: seq<Generated>, support: Text)
    ensures Fresh(files, generated, support) <==> IsFixed(files, generated, support) && Consistent(generated, support)
  {
    if Fresh(files, generated, support) {
      FreshIsFixed(files, generated, support);
    }
    if IsFixed(files, generated, support) && Consistent(generated, support) {
      FixedIsFresh(files, generated, support);
    }
  }

  /** So a check straight after a sync passes exactly when no name is given two contents. */
  lemma {:induction false} CheckAfterSync(files: Files, generated: seq<Generated>, support: Text)
    ensures Fresh(Some(Written(files, generated, support)), generated, support) <==> Consistent(generated, support)
  {
    SyncIsIdempotent(files, generated, support);
    CheckIff(Some(Written(files, generated, support)), generated, support);
  }

  // ----- when names are given two contents -----

  /** The support template opens like the aggregate, not like a document's file. */
  predicate IsSupport(support: Text) {
    |support| > |HEAD| && support[|HEAD|] == '.'
  }

  lemma {:induction false} AfterHead(c: Byte, rest: Text)
    requires c != NEWLINE
    ensures
      var s := PopBlank(HEAD + ([c] + rest));
      |s| > |HEAD| && s[|HEAD|] == c
  {
    var whole := HEAD + ([c] + rest);
    assert whole[|HEAD|] == c;
    PopKeeps(whole, |HEAD|);
    assert PopBlank(whole)[..|HEAD| + 1][|HEAD|] == whole[..|HEAD| + 1][|HEAD|];
  }

  lemma {:induction false} DocumentOpens(d: Document, texts: Texts)
    ensures |DocumentText(d, texts)| > |HEAD| && DocumentText(d, texts)[|HEAD|] == ' '
  {
    var tail := FROM[1..] + d.shown + texts.tests(d.shown, d.blocks);
    assert FROM == [' '] + FROM[1..];
    assert HEAD + FROM + d.shown + texts.tests(d.shown, d.blocks) == HEAD + ([' '] + tail);
    AfterHead(' ', tail);
  }

  lemma {:induction false} AggregateOpens(generated: seq<Generated>, introduction: Text)
    ensures |Aggregate(generated, introduction)| > |HEAD| && Aggregate(generated, introduction)[|HEAD|] == '.'
  {
    var body := introduction + Declarations(generated, ModuleNames(generated));
    assert DO_NOT_EDIT == ['.'] + DO_NOT_EDIT[1..];
    assert HEAD + DO_NOT_EDIT + body == HEAD + (['.'] + (DO_NOT_EDIT[1..] + body));
    AfterHead('.', DO_NOT_EDIT[1..] + body);
  }

  /** A document with tests whose output name is one of the tool's two own. */
  predicate Clashes(d: Document) {
    AnyRunnable(d.blocks) && (OutputName(d.stem) == SUPPORT_NAME || OutputName(d.stem) == AGGREGATE_NAME)
  }

  lemma {:induction false} ClashIsInconsistent(
    documents: seq<Document>, texts: Texts, support: Text, d: Document)
    requires IsSupport(support) && d in documents && Clashes(d)
    ensures !Consistent(AllGenerated(documents, texts), support)
  {
    var collected, all := Collected(documents, texts), AllGenerated(documents, texts);
    CollectedFrom(documents, texts);
    MemberNames(collected, OutputName(d.stem));
    var g :| g in collected && g.name == OutputName(d.stem);
    var from :| from in documents && ComesFrom(g, from, texts);
    DocumentOpens(from, texts);
    AllGeneratedHolds(documents, texts, g);
    if g.name == AGGREGATE_NAME {
      var sorted := Sorting.StableSort(NameLe, collected);
      var aggregate := Generated(AGGREGATE_NAME, Aggregate(sorted, texts.introduction));
      AllGeneratedHolds(documents, texts, aggregate);
      AggregateOpens(sorted, texts.introduction);
      assert g in all && aggregate in all && g.contents != aggregate.contents;
    } else {
      assert g in all && g.contents != support;
    }
  }

  lemma {:induction false} NoClashIsConsistent(
    documents: seq<Document>, texts: Texts, support: Text)
    requires forall d :: d in documents ==> !Clashes(d)
    ensures Consistent(AllGenerated(documents, texts), support)
  {
    var collected, all := Collected(documents, texts), AllGenerated(documents, texts);
    CollectedFrom(documents, texts);
    forall g | g in collected ensures g.name != SUPPORT_NAME && g.name != AGGREGATE_NAME {
      var d :| d in documents && ComesFrom(g, d, texts);
    }
    FixedNames();
    forall g | g in all ensures g.name != SUPPORT_NAME {
      AllGeneratedHolds(documents, texts, g);
    }
    forall g, h | g in all && h in all && g.name == h.name ensures g.contents == h.contents {
      AllGeneratedHolds(documents, texts, g);
      AllGeneratedHolds(documents, texts, h);
    }
  }

  /** For the files of any documents: a check passes exactly when a sync would change nothing and no document with
      tests maps to `gen_all.rs` or `gen_support.rs`. */
  lemma {:induction false} CheckDocuments(
    documents: seq<Document>, texts: Texts, files: Option<Files>, support: Text)
    requires IsSupport(support)
    ensures
      var generated := AllGenerated(documents, texts);
      Fresh(files, generated, support) <==>
        IsFixed(files, generated, support) && forall d :: d in documents ==> !Clashes(d)
  {
    CheckIff(files, AllGenerated(documents, texts), support);
    if d :| d in documents && Clashes(d) {
      ClashIsInconsistent(documents, texts, support, d);
    } else {
      NoClashIsConsistent(documents, texts, support);
    }
  }

  lemma {:induction false} AllNamesTheAggregate()
    ensures OutputName("all") == AGGREGATE_NAME
  {
    var s: Text := "all";
    assert s[..2] == ['a', 'l'] && s[..2][..1] == ['a'] && s[..2][..1][..0] == [];
    assert Squeezed(['a']) == ['a'];
    assert Squeezed(['a', 'l']) == ['a', 'l'];
    assert Squeezed(s) == s;
    assert Trim(s, '_') == s;
    assert GEN + s + RS == AGGREGATE_NAME;
  }

  /** A document `all.md` with a test: no check passes, not even straight after a sync. */
  lemma {:induction false} AllDocumentNeverPasses(
    shown: Text, blocks: seq<Block>, texts: Texts, files: Option<Files>, support: Text)
    requires IsSupport(support) && AnyRunnable(blocks)
    ensures !Fresh(files, AllGenerated([Document("all", shown, blocks)], texts), support)
  {
    var d := Document("all", shown, blocks);
    AllNamesTheAggregate();
    assert d in [d] && Clashes(d);
    CheckDocuments([d], texts, files, support);
  }
}
