/** Test generation: a document's runnable blocks become tests named after their headings, no two alike. */
module Generate {
  import opened Text
  import opened Decimal

  // ----- slugs -----

  predicate Alphanumeric(c: Byte) {
    'a' <= c <= 'z' || 'A' <= c <= 'Z' || '0' <= c <= '9'
  }

  function Lower(c: Byte): Byte {
    if 'A' <= c <= 'Z' then c - 'A' + 'a' else c
  }

  function TrimLeft(s: Text, c: Byte): Text {
    if s != [] && s[0] == c then TrimLeft(s[1..], c) else s
  }

  function TrimRight(s: Text, c: Byte): Text {
    if s != [] && s[|s| - 1] == c then TrimRight(s[..|s| - 1], c) else s
  }

  /** `trim_matches`. */
  function Trim(s: Text, c: Byte): Text {
    TrimRight(TrimLeft(s, c), c)
  }

  /** Whether the text so far ends in a gap, as it does before it starts. */
  predicate Gap(text: Text) {
    text == [] || !Alphanumeric(text[|text| - 1])
  }

  /** The words of the text so far, lower case, one `_` for each gap after the first word. */
  function Words(text: Text): Text {
    if text == [] then []
    else
      var front, c := text[..|text| - 1], text[|text| - 1];
      if Alphanumeric(c) then Words(front) + [Lower(c)]
      else if Gap(front) then Words(front)
      else Words(front) + ['_']
  }

  function Slug(text: Text): Text {
    Trim(Words(text), '_')
  }

  method MakeSlug(text: Text) returns (out: Text)
    ensures out == Slug(text)
  {
    out := [];
    var lastUnderscore := true;
    for k := 0 to |text|
      invariant out == Words(text[..k]) && lastUnderscore == Gap(text[..k])
    {
      Prefix(text, k);
      if Alphanumeric(text[k]) {
        out := out + [Lower(text[k])];
        lastUnderscore := false;
      } else if !lastUnderscore {
        out := out + ['_'];
        lastUnderscore := true;
      }
    }
    WholePrefix(text);
    out := Trim(out, '_');
  }

  predicate SlugChar(c: Byte) {
    'a' <= c <= 'z' || '0' <= c <= '9' || c == '_'
  }

  /** Lower-case words joined by single underscores, the first word at the front. */
  predicate Joined(s: Text) {
    && (forall k :: 0 <= k < |s| ==> SlugChar(s[k]))
    && (s != [] ==> s[0] != '_')
    && (forall k :: 0 < k < |s| && s[k] == '_' ==> s[k - 1] != '_')
  }

  predicate IsSlug(s: Text) {
    Joined(s) && (s != [] ==> s[|s| - 1] != '_')
  }

  lemma {:induction false} JoinedSnoc(s: Text, c: Byte)
    requires Joined(s) && SlugChar(c) && (c == '_' ==> s != [] && s[|s| - 1] != '_')
    ensures Joined(s + [c])
  {
  }

  lemma {:induction false} JoinedFront(s: Text)
    requires Joined(s) && s != []
    ensures Joined(s[..|s| - 1])
  {
  }

  lemma {:induction false} WordsShape(text: Text)
    ensures Joined(Words(text))
    ensures Gap(text) <==> Words(text) == [] || Words(text)[|Words(text)| - 1] == '_'
  {
    if text != [] {
      var front, c := text[..|text| - 1], text[|text| - 1];
      WordsShape(front);
      if Alphanumeric(c) {
        JoinedSnoc(Words(front), Lower(c));
      } else if !Gap(front) {
        JoinedSnoc(Words(front), '_');
      }
    }
  }

  lemma {:induction false} SlugIs(text: Text)
    ensures
      var words := Words(text);
      Slug(text) == if words != [] && words[|words| - 1] == '_' then words[..|words| - 1] else words
  {
    WordsShape(text);
    var words := Words(text);
    assert TrimLeft(words, '_') == words;
    if words != [] && words[|words| - 1] == '_' {
      var front := words[..|words| - 1];
      assert front == [] || front[|front| - 1] != '_';
      assert TrimRight(front, '_') == front;
    }
  }

  /** A slug is lower-case words joined by single underscores, with none at either end. */
  lemma {:induction false} SlugIsWords(text: Text)
    ensures IsSlug(Slug(text))
  {
    WordsShape(text);
    SlugIs(text);
    var words := Words(text);
    if words != [] && words[|words| - 1] == '_' {
      JoinedFront(words);
    }
  }

  lemma {:induction false} WordsOfJoined(s: Text)
    requires Joined(s)
    ensures Words(s) == s
  {
    if s != [] {
      var front, c := s[..|s| - 1], s[|s| - 1];
      JoinedFront(s);
      WordsOfJoined(front);
      assert s == front + [c];
      if c == '_' {
        assert |s| > 1 && s[|s| - 2] != '_' && SlugChar(s[|s| - 2]);
        assert front[|front| - 1] == s[|s| - 2];
      }
    }
  }

  /** The words of a text: its maximal runs of ASCII letters and digits, in order, in lower case. */
  function WordList(text: Text): seq<Text> {
    if text == [] then []
    else
      var n := |text| - 1;
      var front, c := WordList(text[..n]), text[n];
      if !('a' <= c <= 'z' || 'A' <= c <= 'Z' || '0' <= c <= '9') then front
      else
        var lower: Byte := if 'A' <= c <= 'Z' then (c as int + 32) as char else c;
        var before: Byte := if n > 0 then text[n - 1] else ' ';
        if 'a' <= before <= 'z' || 'A' <= before <= 'Z' || '0' <= before <= '9'
        then Extended(front, lower) else front + [[lower]]
  }

  /** The last word grown by one character. */
  function Extended(words: seq<Text>, c: Byte): seq<Text> {
    if words == [] then [[c]] else words[..|words| - 1] + [words[|words| - 1] + [c]]
  }

  lemma {:induction false} JoinWord(words: seq<Text>, word: Text)
    requires words != []
    ensures Join(words + [word], '_') == Join(words, '_') + ['_'] + word
  {
    var all := words + [word];
    if |words| == 1 {
      assert all[1..] == [word];
    } else {
      JoinWord(words[1..], word);
      assert all[0] == words[0] && all[1..] == words[1..] + [word];
      JoinShape(words[0], Join(words[1..], '_'), word);
    }
  }

  lemma {:induction false} JoinShape(a: Text, b: Text, c: Text)
    ensures a + ['_'] + (b + ['_'] + c) == (a + ['_'] + b) + ['_'] + c
  {
  }

  lemma {:induction false} JoinExtended(words: seq<Text>, c: Byte)
    requires words != []
    ensures Join(Extended(words, c), '_') == Join(words, '_') + [c]
  {
    var front, last := words[..|words| - 1], words[|words| - 1];
    assert words == front + [last];
    if front != [] {
      JoinWord(front, last);
      JoinWord(front, last + [c]);
      assert Join(front, '_') + ['_'] + (last + [c]) == (Join(front, '_') + ['_'] + last) + [c];
    }
  }

  lemma {:induction false} LowerIs(c: Byte)
    requires Alphanumeric(c)
    ensures Lower(c) == if 'A' <= c <= 'Z' then (c as int + 32) as char else c
  {
  }

  lemma {:induction false} WordListStep(text: Text)
    requires text != []
    ensures
      var front, c := text[..|text| - 1], text[|text| - 1];
      WordList(text) ==
        if !Alphanumeric(c) then WordList(front)
        else if Gap(front) then WordList(front) + [[Lower(c)]]
        else Extended(WordList(front), Lower(c))
  {
    var n := |text| - 1;
    if Alphanumeric(text[n]) {
      LowerIs(text[n]);
    }
    assert Gap(text[..n]) <==> n == 0 || !Alphanumeric(text[n - 1]);
  }

  /** The slug under way: the words so far, and an underscore after them when the last character was none of theirs. */
  lemma {:induction false} WordsAre(text: Text)
    ensures WordList(text) == [] ==> Words(text) == [] && Gap(text)
    ensures WordList(text) != [] ==>
      Words(text) == if Gap(text) then Join(WordList(text), '_') + ['_'] else Join(WordList(text), '_')
  {
    if text != [] {
      var front, c := text[..|text| - 1], text[|text| - 1];
      WordsAre(front);
      WordListStep(text);
      if Alphanumeric(c) && WordList(front) != [] {
        JoinWord(WordList(front), [Lower(c)]);
        JoinExtended(WordList(front), Lower(c));
      }
    }
  }

  /** A slug is its text's words, joined by underscores. */
  lemma {:induction false} SlugJoinsWords(text: Text)
    ensures Slug(text) == Join(WordList(text), '_')
  {
    WordsAre(text);
    SlugIs(text);
    WordsShape(text);
    var joined := Join(WordList(text), '_');
    if WordList(text) != [] && Gap(text) {
      assert (joined + ['_'])[..|joined|] == joined;
    }
  }

  /** A slug is its own slug. */
  lemma {:induction false} SlugIdempotent(text: Text)
    ensures Slug(Slug(text)) == Slug(text)
  {
    SlugIsWords(text);
    WordsOfJoined(Slug(text));
    SlugIs(Slug(text));
  }

  // ----- names no two alike -----

  function Candidate(base: Text, n: nat): Text {
    base + ['_'] + Print(n)
  }

  lemma {:induction false} CandidateInjective(base: Text, a: nat, b: nat)
    requires Candidate(base, a) == Candidate(base, b)
    ensures a == b
  {
    assert Candidate(base, a)[|base| + 1..] == Print(a);
    assert Candidate(base, b)[|base| + 1..] == Print(b);
    PrintInjective(a, b);
  }

  /** The used names that a suffix from `from` on would spell. */
  ghost function Taken(base: Text, used: set<Text>, from: nat): set<Text> {
    set t | t in used && exists n :: n >= from && t == Candidate(base, n)
  }

  lemma {:induction false} TakenShrinks(base: Text, used: set<Text>, from: nat)
    requires Candidate(base, from) in used
    ensures |Taken(base, used, from + 1)| < |Taken(base, used, from)|
  {
    var t := Candidate(base, from);
    forall n | n >= from + 1 ensures Candidate(base, n) != t {
      if Candidate(base, n) == t {
        CandidateInjective(base, n, from);
      }
    }
    assert t in Taken(base, used, from) && t !in Taken(base, used, from + 1);
    Smaller(Taken(base, used, from + 1), Taken(base, used, from), t);
  }

  lemma {:induction false} Smaller(a: set<Text>, b: set<Text>, x: Text)
    requires a <= b && x in b && x !in a
    ensures |a| < |b|
  {
    assert b == a + (b - a);
    assert |b| == |a| + |b - a|;
  }

  /** The search for an unused suffix ends: decimal forms are distinct and the used names are finite. */
  function FreeSuffix(base: Text, used: set<Text>, from: nat): (n: nat)
    ensures n >= from && Candidate(base, n) !in used
    ensures forall k :: from <= k < n ==> Candidate(base, k) in used
    decreases |Taken(base, used, from)|
  {
    if Candidate(base, from) !in used then from
    else
      TakenShrinks(base, used, from);
      FreeSuffix(base, used, from + 1)
  }

  /** The name is the base with the number `n`, and every smaller number from 2 on is taken. */
  predicate IsLeastFree(base: Text, used: set<Text>, name: Text, n: nat) {
    n >= 2 && name == base + ['_'] + Print(n) && forall m: nat :: 2 <= m < n ==> base + ['_'] + Print(m) in used
  }

  /** The base itself, or the base with the least suffix from 2 on that no used name spells. */
  function UniqueName(base: Text, used: set<Text>): (name: Text)
    ensures name !in used
    ensures base !in used ==> name == base
    ensures base in used ==> exists n: nat :: IsLeastFree(base, used, name, n)
  {
    if base !in used then base
    else
      var n := FreeSuffix(base, used, 2);
      assert IsLeastFree(base, used, Candidate(base, n), n) by {
        forall m: nat | 2 <= m < n ensures base + ['_'] + Print(m) in used {
          assert Candidate(base, m) in used;
        }
      }
      Candidate(base, n)
  }

  lemma {:induction false} FreeSuffixIs(base: Text, used: set<Text>, n: nat)
    requires n >= 2 && Candidate(base, n) !in used && forall k :: 2 <= k < n ==> Candidate(base, k) in used
    ensures FreeSuffix(base, used, 2) == n
  {
    assert Candidate(base, FreeSuffix(base, used, 2)) !in used;
  }

  /** The loop that finds it. */
  method FindName(base: Text, used: set<Text>) returns (name: Text)
    ensures name == UniqueName(base, used)
  {
    if base !in used {
      return base;
    }
    var suffix := 2;
    name := Candidate(base, suffix);
    while name in used
      invariant suffix >= 2 && name == Candidate(base, suffix)
      invariant forall k :: 2 <= k < suffix ==> Candidate(base, k) in used
      decreases |Taken(base, used, suffix)|
    {
      TakenShrinks(base, used, suffix);
      suffix := suffix + 1;
      name := Candidate(base, suffix);
    }
    FreeSuffixIs(base, used, suffix);
  }

  function Members(names: seq<Text>): set<Text> {
    set n | n in names
  }

  /** A name for each base in turn. */
  function NamesFrom(bases: seq<Text>): (names: seq<Text>)
    ensures |names| == |bases|
  {
    if bases == [] then []
    else
      var front := NamesFrom(bases[..|bases| - 1]);
      front + [UniqueName(bases[|bases| - 1], Members(front))]
  }

  /** No two names are alike, and a base keeps its own spelling wherever no earlier name took it. */
  lemma {:induction false} NamesAreDistinct(bases: seq<Text>)
    ensures
      var names := NamesFrom(bases);
      (forall i, j :: 0 <= i < j < |names| ==> names[i] != names[j])
      && forall k :: 0 <= k < |names| ==>
        names[k] == bases[k]
        || (bases[k] in names[..k] && exists n: nat :: IsLeastFree(bases[k], Members(names[..k]), names[k], n))
  {
    if bases != [] {
      var m := |bases| - 1;
      NamesAreDistinct(bases[..m]);
      var front, names := NamesFrom(bases[..m]), NamesFrom(bases);
      assert names[..m] == front;
      assert names[m] !in Members(front);
      forall i | 0 <= i < m ensures names[i] != names[m] {
        assert names[i] == front[i] && front[i] in front;
      }
      forall k | 0 <= k < m
        ensures names[k] == bases[k]
                || (bases[k] in names[..k]
                    && exists n: nat :: IsLeastFree(bases[k], Members(names[..k]), names[k], n))
      {
        assert names[k] == front[k] && names[..k] == front[..k] && bases[..m][k] == bases[k];
      }
    }
  }

  // ----- a document's file -----

  datatype Block = Block(heading: Option<Text>, line: nat, runnable: bool)

  const LINE: Text := "line_"

  /** What a block's test would be called if nothing else were. */
  function BaseOf(block: Block): Text {
    if block.heading.Some? && Slug(block.heading.value) != [] then Slug(block.heading.value)
    else LINE + Print(block.line)
  }

  function Runnable(blocks: seq<Block>): seq<Block> {
    if blocks == [] then []
    else
      var front, last := Runnable(blocks[..|blocks| - 1]), blocks[|blocks| - 1];
      if last.runnable then front + [last] else front
  }

  function Bases(blocks: seq<Block>): (bases: seq<Text>)
    ensures |bases| == |blocks|
    ensures forall k :: 0 <= k < |blocks| ==> bases[k] == BaseOf(blocks[k])
  {
    seq(|blocks|, k requires 0 <= k < |blocks| => BaseOf(blocks[k]))
  }

  /** The test names of a document, in block order. */
  function TestNames(blocks: seq<Block>): seq<Text> {
    NamesFrom(Bases(Runnable(blocks)))
  }

  lemma {:induction false} NamesSnoc(bases: seq<Text>, base: Text)
    ensures NamesFrom(bases + [base]) == NamesFrom(bases) + [UniqueName(base, Members(NamesFrom(bases)))]
  {
    assert (bases + [base])[..|bases|] == bases;
  }

  lemma {:induction false} MembersSnoc(names: seq<Text>, name: Text)
    ensures Members(names + [name]) == Members(names) + {name}
  {
  }

  lemma {:induction false} BasesSnoc(blocks: seq<Block>, block: Block)
    ensures Bases(blocks + [block]) == Bases(blocks) + [BaseOf(block)]
  {
  }

  lemma {:induction false} TestNamesStep(blocks: seq<Block>, k: nat)
    requires k < |blocks|
    ensures
      var names := TestNames(blocks[..k]);
      TestNames(blocks[..k + 1]) ==
        if blocks[k].runnable then names + [UniqueName(BaseOf(blocks[k]), Members(names))] else names
  {
    Prefix(blocks, k);
    if blocks[k].runnable {
      BasesSnoc(Runnable(blocks[..k]), blocks[k]);
      NamesSnoc(Bases(Runnable(blocks[..k])), BaseOf(blocks[k]));
    }
  }

  method NameTests(blocks: seq<Block>) returns (names: seq<Text>)
    ensures names == TestNames(blocks)
  {
    names := [];
    var used: set<Text> := {};
    for k := 0 to |blocks|
      invariant names == TestNames(blocks[..k]) && used == Members(names)
    {
      TestNamesStep(blocks, k);
      if blocks[k].runnable {
        var name := FindName(BaseOf(blocks[k]), used);
        MembersSnoc(names, name);
        used := used + {name};
        names := names + [name];
      }
    }
    WholePrefix(blocks);
  }

  /** One more block: a block that does not run is no test; another is named after its heading's slug, or after its
      line when it has no heading or one without words, and gets the least free number when that name is taken. */
  lemma {:induction false} BlockIsNamed(blocks: seq<Block>, b: Block)
    ensures !b.runnable ==> TestNames(blocks + [b]) == TestNames(blocks)
    ensures b.runnable ==>
      var base := if b.heading.None? || WordList(b.heading.value) == [] then "line_" + Print(b.line)
                  else Join(WordList(b.heading.value), '_');
      TestNames(blocks + [b]) == TestNames(blocks) + [UniqueName(base, Members(TestNames(blocks)))]
  {
    var all := blocks + [b];
    TestNamesStep(all, |blocks|);
    assert all[..|blocks|] == blocks && all[..|blocks| + 1] == all;
    if b.heading.Some? {
      SlugJoinsWords(b.heading.value);
      WordsAre(b.heading.value);
      NoWords(b.heading.value);
    }
  }

  lemma {:induction false} NoWords(text: Text)
    ensures Join(WordList(text), '_') == [] <==> WordList(text) == []
  {
    WordsAre(text);
    WordsShape(text);
  }

  // ----- the text of a generated file -----

  const NEWLINE: Byte := '\n'

  predicate EndsBlank(s: Text) {
    |s| >= 2 && s[|s| - 1] == NEWLINE && s[|s| - 2] == NEWLINE
  }

  /** Pop newlines while the text ends in a blank line. */
  function PopBlank(s: Text): Text {
    if EndsBlank(s) then PopBlank(s[..|s| - 1]) else s
  }

  method Pop(s: Text) returns (out: Text)
    ensures out == PopBlank(s)
  {
    out := s;
    while EndsBlank(out)
      invariant PopBlank(out) == PopBlank(s)
      decreases |out|
    {
      out := out[..|out| - 1];
    }
  }

  /** Popping stops at the last character that is not a newline. */
  lemma {:induction false} PopKeeps(s: Text, k: nat)
    requires k < |s| && s[k] != NEWLINE
    ensures k < |PopBlank(s)| && PopBlank(s)[..k + 1] == s[..k + 1]
  {
    if EndsBlank(s) {
      PopKeeps(s[..|s| - 1], k);
      assert s[..|s| - 1][..k + 1] == s[..k + 1];
    }
  }

  /** What popping leaves: the text less some newlines at its end, no blank line at that end, and a newline there when
      any was taken. */
  lemma {:induction false} PopIs(s: Text)
    ensures PopBlank(s) <= s && forall k :: |PopBlank(s)| <= k < |s| ==> s[k] == '\n'
    ensures
      var out := PopBlank(s);
      && !(|out| >= 2 && out[|out| - 2..] == ['\n', '\n'])
      && (out != s ==> out != [] && out[|out| - 1] == '\n')
  {
    if EndsBlank(s) {
      PopIs(s[..|s| - 1]);
    }
  }
}
