/** Code blocks in model answers: the fence grammar of section 4.5 of the CommonMark Spec as
    the parser reads it, and the choice among the blocks found. */
module Fences {
  import opened Sequences
  import opened Text

  /** The length of the run of c at the start of s. */
  function Leading(s: string, c: char): (n: nat)
    ensures n <= |s|
  {
    if s != [] && s[0] == c then 1 + Leading(s[1..], c) else 0
  }

  function Repeat(c: char, n: nat): (s: string)
    ensures |s| == n && forall k :: 0 <= k < n ==> s[k] == c
  {
    seq(n, i => c)
  }

  /** s is n times c and then something else. */
  lemma {:induction false} LeadingIff(s: string, c: char, n: nat)
    ensures Leading(s, c) == n <==> exists rest :: s == Repeat(c, n) + rest && (rest == "" || rest[0] != c)
  {
    LeadingSplits(s, c);
    if rest :| s == Repeat(c, n) + rest && (rest == "" || rest[0] != c) { LeadingOf(c, n, rest); }
  }

  lemma {:induction false} LeadingSplits(s: string, c: char)
    ensures s == Repeat(c, Leading(s, c)) + s[Leading(s, c)..]
    ensures s[Leading(s, c)..] == "" || s[Leading(s, c)..][0] != c
  {
    if s != [] && s[0] == c {
      LeadingSplits(s[1..], c);
      assert Repeat(c, Leading(s, c)) == [c] + Repeat(c, Leading(s[1..], c));
    }
  }

  lemma {:induction false} LeadingOf(c: char, n: nat, rest: string)
    requires rest == "" || rest[0] != c
    ensures Leading(Repeat(c, n) + rest, c) == n
  {
    if n == 0 {
      assert Repeat(c, 0) + rest == rest;
    } else {
      assert (Repeat(c, n) + rest)[1..] == Repeat(c, n - 1) + rest;
      LeadingOf(c, n - 1, rest);
    }
  }

  datatype Fence = Fence(ticks: nat, info: string)

  /** At most three spaces, at least three backticks, then anything. */
  function Match(line: string): Option<Fence> {
    var spaces := Leading(line, ' ');
    var rest := line[spaces..];
    var ticks := Leading(rest, '`');
    if spaces <= 3 && ticks >= 3 then Some(Fence(ticks, rest[ticks..])) else None
  }

  /** A fence is up to three spaces, three backticks or more, and an info string that does not go on with one. */
  lemma MatchIff(line: string, n: nat, info: string)
    ensures Match(line) == Some(Fence(n, info)) <==>
      n >= 3 && (info == "" || info[0] != '`') && exists k :: k in {0, 1, 2, 3} && line == Repeat(' ', k) + (Repeat('`', n) + info)
  {
    hide Leading;
    var spaces := Leading(line, ' ');
    var rest := line[spaces..];
    LeadingSplits(line, ' ');
    LeadingSplits(rest, '`');
    if k :| k in {0, 1, 2, 3} && line == Repeat(' ', k) + (Repeat('`', n) + info) && n >= 3 && (info == "" || info[0] != '`') {
      LeadingOf(' ', k, Repeat('`', n) + info);
      LeadingOf('`', n, info);
      assert rest == Repeat('`', n) + info;
      assert rest[n..] == info;
    }
  }

  predicate Closes(line: string, ticks: nat) {
    var m := Match(line);
    m.Some? && m.value.ticks >= ticks && Strip(m.value.info) == ""
  }

  /** The text up to the first white space. */
  function Word(s: string): string {
    if s == [] || IsSpace(s[0]) then [] else [s[0]] + Word(s[1..])
  }

  /** lower is `str.lower`. */
  function TagOf(info: string, lower: string -> string): Option<string> {
    if Strip(info) == "" then None else Some(lower(Word(Strip(info))))
  }

  /** The tag is the first word of the info string, in lower case; a blank info string gives none. */
  lemma TagIsFirstWord(before: string, word: string, after: string, lower: string -> string)
    requires Blank(before) && word != "" && (forall k :: 0 <= k < |word| ==> !IsSpace(word[k]))
    requires after == "" || IsSpace(after[0])
    ensures TagOf(before + word + after, lower) == Some(lower(word)) && TagOf(before, lower) == None
  {
    hide TrimLeft, TrimRight, Word;
    assert before + word + after == before + (word + after);
    TrimLeftOf(before, word + after);
    TrimRightOf(word, after);
    var cut := TrimRightCuts(after);
    WordOf(word, TrimRight(after));
    StripOf(before, "", "");
    assert before + "" + "" == before;
  }

  lemma {:induction false} WordOf(word: string, after: string)
    requires (forall k :: 0 <= k < |word| ==> !IsSpace(word[k])) && (after == "" || IsSpace(after[0]))
    ensures Word(word + after) == word
  {
    if word == [] {
      assert word + after == after;
    } else {
      assert (word + after)[1..] == word[1..] + after;
      WordOf(word[1..], after);
    }
  }

  function Join(lines: seq<string>): string {
    if lines == [] then ""
    else if |lines| == 1 then lines[0]
    else lines[0] + "\n" + Join(lines[1..])
  }

  /** Python's `text.split("\n")`. */
  function Split(text: string): (lines: seq<string>)
    ensures lines != []
  {
    if text == [] then [[]]
    else
      var rest := Split(text[1..]);
      if text[0] == '\n' then [[]] + rest else [[text[0]] + rest[0]] + rest[1..]
  }

  lemma {:induction false} SplitLine(line: string, rest: string)
    requires '\n' !in line
    ensures Split(line) == [line]
    ensures Split(line + "\n" + rest) == [line] + Split(rest)
  {
    if line == [] {
      assert line + "\n" + rest == "\n" + rest && ("\n" + rest)[1..] == rest;
    } else {
      SplitLine(line[1..], rest);
      assert (line + "\n" + rest)[1..] == line[1..] + "\n" + rest;
      assert line == [line[0]] + line[1..];
    }
  }

  lemma {:induction false} SplitOfJoin(lines: seq<string>)
    requires lines != [] && forall l :: l in lines ==> '\n' !in l
    ensures Split(Join(lines)) == lines
  {
    SplitLine(lines[0], Join(lines[1..]));
    if |lines| > 1 {
      SplitOfJoin(lines[1..]);
      assert lines == [lines[0]] + lines[1..];
    }
  }

  // ------------------------------------------------- the grammar

  datatype Block = Block(tag: Option<string>, content: string)

  datatype Item = Prose(line: string) | Fenced(opener: string, body: seq<string>, closer: string)

  /** The lines after an opening fence that do not close it. */
  predicate Inside(opener: string, body: seq<string>) {
    Match(opener).Some? && forall k :: 0 <= k < |body| ==> !Closes(body[k], Match(opener).value.ticks)
  }

  predicate Fits(item: Item) {
    match item
    case Prose(line) => Match(line).None?
    case Fenced(opener, body, closer) => Inside(opener, body) && Closes(closer, Match(opener).value.ticks)
  }

  /** What follows the last complete item: nothing, or a block that is never closed. */
  predicate Dangling(tail: seq<string>) {
    tail == [] || Inside(tail[0], tail[1..])
  }

  function ItemLines(i: Item): seq<string> {
    if i.Prose? then [i.line] else [i.opener] + i.body + [i.closer]
  }

  function ItemBlocks(i: Item, lower: string -> string): seq<Block> {
    if i.Prose? || Match(i.opener).None? then [] else [Block(TagOf(Match(i.opener).value.info, lower), Join(i.body))]
  }

  function LinesOf(items: seq<Item>): seq<string> {
    if items == [] then [] else ItemLines(items[0]) + LinesOf(items[1..])
  }

  function BlocksOf(items: seq<Item>, lower: string -> string): seq<Block> {
    if items == [] then [] else ItemBlocks(items[0], lower) + BlocksOf(items[1..], lower)
  }

  // ------------------------------------------------- the line machine

  datatype Open = Open(tag: Option<string>, ticks: nat, body: seq<string>)
  datatype State = State(blocks: seq<Block>, open: Option<Open>)

  function Step(st: State, line: string, lower: string -> string): State {
    var m := Match(line);
    match st.open
    case Some(o) =>
      if m.Some? && m.value.ticks >= o.ticks && Strip(m.value.info) == "" then
        State(st.blocks + [Block(o.tag, Join(o.body))], None)
      else st.(open := Some(o.(body := o.body + [line])))
    case None =>
      if m.Some? then st.(open := Some(Open(TagOf(m.value.info, lower), m.value.ticks, [])))
      else st
  }

  function Run(st: State, lines: seq<string>, lower: string -> string): State
    decreases |lines|
  {
    if lines == [] then st else Run(Step(st, lines[0], lower), lines[1..], lower)
  }

  const START := State([], None)

  method ParseLines(lines: seq<string>, lower: string -> string) returns (blocks: seq<Block>)
    ensures blocks == Run(START, lines, lower).blocks
  {
    blocks := [];
    var open: Option<Open> := None;
    for i := 0 to |lines|
      invariant Run(State(blocks, open), lines[i..], lower) == Run(START, lines, lower)
    {
      var m := Match(lines[i]);
      assert lines[i..][1..] == lines[i + 1..];
      if m.Some? && open.Some? {
        if m.value.ticks >= open.value.ticks && Strip(m.value.info) == "" {
          blocks := blocks + [Block(open.value.tag, Join(open.value.body))];
          open := None;
          continue;
        }
        open := Some(open.value.(body := open.value.body + [lines[i]]));
      } else if m.Some? {
        open := Some(Open(TagOf(m.value.info, lower), m.value.ticks, []));
      } else if open.Some? {
        open := Some(open.value.(body := open.value.body + [lines[i]]));
      }
    }
    assert lines[|lines|..] == [];
  }

  lemma {:induction false} RunAppend(st: State, a: seq<string>, b: seq<string>, lower: string -> string)
    ensures Run(st, a + b, lower) == Run(Run(st, a, lower), b, lower)
    decreases |a|
  {
    if a == [] {
      assert a + b == b;
    } else {
      assert (a + b)[1..] == a[1..] + b;
      RunAppend(Step(st, a[0], lower), a[1..], b, lower);
    }
  }

  lemma {:induction false} RunInside(blocks: seq<Block>, o: Open, body: seq<string>, lower: string -> string)
    requires forall k :: 0 <= k < |body| ==> !Closes(body[k], o.ticks)
    ensures Run(State(blocks, Some(o)), body, lower) == State(blocks, Some(o.(body := o.body + body)))
    decreases |body|
  {
    if body == [] {
      assert o.body + body == o.body;
    } else {
      var o' := o.(body := o.body + [body[0]]);
      assert Step(State(blocks, Some(o)), body[0], lower) == State(blocks, Some(o'));
      RunInside(blocks, o', body[1..], lower);
      assert o.body + [body[0]] + body[1..] == o.body + body;
    }
  }

  lemma RunOpened(blocks: seq<Block>, opener: string, body: seq<string>, lower: string -> string)
    requires Inside(opener, body)
    ensures Run(State(blocks, None), [opener] + body, lower)
         == State(blocks, Some(Open(TagOf(Match(opener).value.info, lower), Match(opener).value.ticks, body)))
  {
    var o := Open(TagOf(Match(opener).value.info, lower), Match(opener).value.ticks, []);
    assert ([opener] + body)[1..] == body;
    RunInside(blocks, o, body, lower);
    assert [] + body == body;
  }

  lemma ReadItem(blocks: seq<Block>, i: Item, lower: string -> string)
    requires Fits(i)
    ensures Run(State(blocks, None), ItemLines(i), lower) == State(blocks + ItemBlocks(i, lower), None)
  {
    match i
    case Prose(line) =>
      assert [line][1..] == [] && blocks + [] == blocks;
    case Fenced(opener, body, closer) =>
      RunOpened(blocks, opener, body, lower);
      RunAppend(State(blocks, None), [opener] + body, [closer], lower);
      assert [closer][1..] == [];
  }

  lemma ReadTail(blocks: seq<Block>, tail: seq<string>, lower: string -> string)
    requires Dangling(tail)
    ensures Run(State(blocks, None), tail, lower).blocks == blocks
  {
    hide Step;
    if tail != [] {
      assert tail == [tail[0]] + tail[1..];
      RunOpened(blocks, tail[0], tail[1..], lower);
    }
  }

  /** Reading a document gives exactly its closed blocks; an unclosed last block is dropped. */
  lemma {:induction false} ReadDocument(blocks: seq<Block>, items: seq<Item>, tail: seq<string>, lower: string -> string)
    requires (forall i :: 0 <= i < |items| ==> Fits(items[i])) && Dangling(tail)
    ensures Run(State(blocks, None), LinesOf(items) + tail, lower).blocks == blocks + BlocksOf(items, lower)
    decreases |items|
  {
    hide Run, Step, Fits, ItemLines, ItemBlocks, Dangling;
    if items == [] {
      assert LinesOf(items) + tail == tail && blocks + BlocksOf(items, lower) == blocks;
      ReadTail(blocks, tail, lower);
    } else {
      var i, rest := items[0], LinesOf(items[1..]) + tail;
      assert LinesOf(items) + tail == ItemLines(i) + rest;
      ReadItem(blocks, i, lower);
      RunAppend(State(blocks, None), ItemLines(i), rest, lower);
      ReadDocument(blocks + ItemBlocks(i, lower), items[1..], tail, lower);
      assert blocks + ItemBlocks(i, lower) + BlocksOf(items[1..], lower) == blocks + BlocksOf(items, lower);
    }
  }

  /** A block that is closed at once is empty, and has its tag all the same. */
  lemma EmptyBlock(opener: string, closer: string, lower: string -> string)
    requires Match(opener).Some? && Closes(closer, Match(opener).value.ticks)
    ensures Run(START, [opener, closer], lower).blocks == [Block(TagOf(Match(opener).value.info, lower), "")]
  {
    var item := Fenced(opener, [], closer);
    ReadItem([], item, lower);
    assert ItemLines(item) == [opener, closer];
  }

  lemma {:induction false} LinesOfSnoc(items: seq<Item>, i: Item)
    ensures LinesOf(items + [i]) == LinesOf(items) + ItemLines(i)
  {
    hide ItemLines;
    if items == [] {
      assert items + [i] == [i];
    } else {
      LinesOfSnoc(items[1..], i);
      assert (items + [i])[1..] == items[1..] + [i];
    }
  }

  /** One more line ends an item, starts a block or goes on with one. */
  lemma OneMoreLine(tail: seq<string>, line: string) returns (done: seq<Item>, open: seq<string>)
    requires Dangling(tail)
    ensures |done| <= 1 && (done != [] ==> Fits(done[0])) && Dangling(open)
    ensures tail + [line] == (if done == [] then [] else ItemLines(done[0])) + open
  {
    done, open := [], tail + [line];
    if tail == [] && Match(line).None? {
      done, open := [Prose(line)], [];
    } else if tail != [] {
      assert tail == [tail[0]] + tail[1..];
      if Closes(line, Match(tail[0]).value.ticks) {
        done, open := [Fenced(tail[0], tail[1..], line)], [];
      }
    }
  }

  /** Every sequence of lines is a document, so the grammar leaves no input out. */
  lemma {:induction false} EveryTextIsADocument(lines: seq<string>) returns (items: seq<Item>, tail: seq<string>)
    ensures LinesOf(items) + tail == lines && Dangling(tail)
    ensures forall i :: 0 <= i < |items| ==> Fits(items[i])
    decreases |lines|
  {
    hide Fits, ItemLines, Dangling, LinesOf;
    if lines == [] {
      items, tail := [], [];
      NoLines();
    } else {
      var last := lines[|lines| - 1];
      items, tail := EveryTextIsADocument(lines[..|lines| - 1]);
      assert lines == LinesOf(items) + (tail + [last]);
      var done, open := OneMoreLine(tail, last);
      if done != [] {
        LinesOfSnoc(items, done[0]);
        assert lines == LinesOf(items) + ItemLines(done[0]) + open;
        items := items + [done[0]];
      }
      tail := open;
    }
  }

  lemma NoLines()
    ensures LinesOf([]) + [] == [] && Dangling([])
  {
  }
}

module FencePrinter {
  import opened Sequences
  import opened Text
  import opened Fences

  datatype Part = Line(line: string) | Code(tag: string, body: seq<string>)

  /** One more backtick than any line of the body that could close the block, and at least three. */
  function FenceFor(body: seq<string>): (n: nat)
    ensures n >= 3
  {
    if body == [] then 3
    else
      var n, m := FenceFor(body[1..]), Match(body[0]);
      if m.Some? && Strip(m.value.info) == "" && m.value.ticks >= n then m.value.ticks + 1 else n
  }

  /** A language tag: one word, lower-case already, that does not start with a backtick. */
  predicate IsTag(tag: string, lower: string -> string) {
    && (forall k :: 0 <= k < |tag| ==> !IsSpace(tag[k]))
    && (tag != "" ==> lower(tag) == tag && tag[0] != '`')
  }

  predicate Printable(p: Part, lower: string -> string) {
    match p
    case Line(line) => '\n' !in line && Match(line).None?
    case Code(tag, body) => IsTag(tag, lower) && forall k :: 0 <= k < |body| ==> '\n' !in body[k]
  }

  function Print(p: Part): Item {
    match p
    case Line(line) => Prose(line)
    case Code(tag, body) => Fenced(Repeat('`', FenceFor(body)) + tag, body, Repeat('`', FenceFor(body)))
  }

  function PartBlocks(p: Part): seq<Block> {
    if p.Line? then [] else [Block(if p.tag == "" then None else Some(p.tag), Join(p.body))]
  }

  function Meaning(parts: seq<Part>): seq<Block> {
    if parts == [] then [] else PartBlocks(parts[0]) + Meaning(parts[1..])
  }

  lemma MatchTicks(n: nat, rest: string)
    requires n >= 3 && (rest == [] || rest[0] != '`')
    ensures Match(Repeat('`', n) + rest) == Some(Fence(n, rest))
  {
    assert Repeat(' ', 0) + (Repeat('`', n) + rest) == Repeat('`', n) + rest;
    MatchIff(Repeat('`', n) + rest, n, rest);
  }

  lemma {:induction false} FenceIsLonger(body: seq<string>, k: nat)
    requires k < |body|
    ensures !Closes(body[k], FenceFor(body))
  {
    if k > 0 {
      FenceIsLonger(body[1..], k - 1);
      assert body[1..][k - 1] == body[k];
    }
  }

  lemma {:induction false} WordOfTag(tag: string, lower: string -> string)
    requires IsTag(tag, lower)
    ensures Word(tag) == tag && (tag != "" ==> lower(tag) == tag) && Strip(tag) == tag
  {
    if tag != [] {
      assert TrimLeft(tag) == tag && TrimRight(tag) == tag;
    }
    WordOf(tag, "");
    assert tag + "" == tag;
  }

  lemma PrintFits(p: Part, lower: string -> string)
    requires Printable(p, lower)
    ensures Fits(Print(p)) && ItemBlocks(Print(p), lower) == PartBlocks(p)
  {
    if p.Code? {
      var n := FenceFor(p.body);
      MatchTicks(n, p.tag);
      MatchTicks(n, "");
      assert Repeat('`', n) + "" == Repeat('`', n);
      assert Strip("") == "";
      WordOfTag(p.tag, lower);
      forall k | 0 <= k < |p.body|
        ensures !Closes(p.body[k], n)
      {
        FenceIsLonger(p.body, k);
      }
    }
  }

  lemma {:induction false} PrintAllFits(parts: seq<Part>, lower: string -> string)
    requires forall i :: 0 <= i < |parts| ==> Printable(parts[i], lower)
    ensures forall i :: 0 <= i < |parts| ==> Fits(Print(parts[i]))
    ensures BlocksOf(Map(Print, parts), lower) == Meaning(parts)
  {
    hide Fits, Print, ItemBlocks, PartBlocks, Printable;
    if parts != [] {
      PrintFits(parts[0], lower);
      PrintAllFits(parts[1..], lower);
      assert Map(Print, parts)[1..] == Map(Print, parts[1..]);
      assert Map(Print, parts)[0] == Print(parts[0]);
    }
  }

  lemma {:induction false} PrintedLines(parts: seq<Part>, lower: string -> string)
    requires forall i :: 0 <= i < |parts| ==> Printable(parts[i], lower)
    ensures forall l :: l in LinesOf(Map(Print, parts)) ==> '\n' !in l
  {
    if parts != [] {
      PrintedLines(parts[1..], lower);
      assert Map(Print, parts)[1..] == Map(Print, parts[1..]);
      assert Map(Print, parts)[0] == Print(parts[0]);
      var p := parts[0];
      if p.Code? {
        var opener := Repeat('`', FenceFor(p.body)) + p.tag;
        forall k | 0 <= k < |opener|
          ensures opener[k] != '\n'
        {
        }
      }
    }
  }

  function Document(parts: seq<Part>): string { Join(LinesOf(Map(Print, parts))) }

  /** Parsing undoes printing, whatever shorter or info-bearing fences the bodies contain. */
  lemma ParseOfPrint(parts: seq<Part>, lower: string -> string)
    requires forall i :: 0 <= i < |parts| ==> Printable(parts[i], lower)
    ensures Run(START, Split(Document(parts)), lower).blocks == Meaning(parts)
  {
    var items := Map(Print, parts);
    var lines := LinesOf(items);
    PrintAllFits(parts, lower);
    PrintedLines(parts, lower);
    ReadDocument([], items, [], lower);
    assert lines + [] == lines && [] + BlocksOf(items, lower) == BlocksOf(items, lower);
    if lines != [] {
      SplitOfJoin(lines);
    } else {
      assert Split("") == [""] && Match("").None?;
    }
  }
}

module BlockChoice {
  import opened Sequences
  import opened Text
  import opened Fences
  import opened FencePrinter

  predicate IsPython(b: Block) {
    b.tag == None || b.tag == Some("python") || b.tag == Some("py")
  }

  function PythonBlocks(text: string, lower: string -> string): seq<Block> { Filter(IsPython, Run(START, Split(text), lower).blocks) }

  predicate LastParses(blocks: seq<Block>, k: nat, parses: string -> bool)
    requires k < |blocks|
  {
    parses(Strip(blocks[k].content)) && forall q :: k < q < |blocks| ==> !parses(Strip(blocks[q].content))
  }

  /** What the choice must be: the last Python or untagged block that parses, else the last such
      block, else the text, stripped in each case. */
  ghost predicate Chosen(blocks: seq<Block>, text: string, parses: string -> bool, answer: string) {
    && (blocks == [] ==> answer == Strip(text))
    && (blocks != [] && (forall k :: 0 <= k < |blocks| ==> !parses(Strip(blocks[k].content))) ==>
          answer == Strip(blocks[|blocks| - 1].content))
    && (forall k :: 0 <= k < |blocks| && LastParses(blocks, k, parses) ==> answer == Strip(blocks[k].content))
  }

  /** The choice among the first k blocks. */
  function Pick(blocks: seq<Block>, k: nat, parses: string -> bool): string
    requires blocks != [] && k <= |blocks|
  {
    if k == 0 then Strip(blocks[|blocks| - 1].content)
    else if parses(Strip(blocks[k - 1].content)) then Strip(blocks[k - 1].content)
    else Pick(blocks, k - 1, parses)
  }

  function Extract(text: string, parses: string -> bool, lower: string -> string): string {
    var blocks := PythonBlocks(text, lower);
    if blocks == [] then Strip(text) else Pick(blocks, |blocks|, parses)
  }

  method ExtractPythonBlock(text: string, parses: string -> bool, lower: string -> string) returns (answer: string)
    ensures answer == Extract(text, parses, lower)
  {
    var all := ParseLines(Split(text), lower);
    var blocks := Filter(IsPython, all);
    if blocks == [] { return Strip(text); }
    for k := |blocks| downto 0
      invariant Pick(blocks, k, parses) == Extract(text, parses, lower)
    {
      var stripped := Strip(blocks[k].content);
      if parses(stripped) { return stripped; }
    }
    return Strip(blocks[|blocks| - 1].content);
  }

  lemma {:induction false} PickIsChosen(blocks: seq<Block>, k: nat, text: string, parses: string -> bool)
    requires blocks != [] && k <= |blocks|
    requires forall q :: k <= q < |blocks| ==> !parses(Strip(blocks[q].content))
    ensures Chosen(blocks, text, parses, Pick(blocks, k, parses))
  {
    if k > 0 && !parses(Strip(blocks[k - 1].content)) { PickIsChosen(blocks, k - 1, text, parses); }
  }

  /** The extracted block is the one that the rule asks for, and the rule asks for one only. */
  lemma ExtractIsChosen(text: string, parses: string -> bool, lower: string -> string, answer: string)
    ensures Chosen(PythonBlocks(text, lower), text, parses, answer) <==> answer == Extract(text, parses, lower)
  {
    var blocks := PythonBlocks(text, lower);
    if blocks != [] { PickIsChosen(blocks, |blocks|, text, parses); }
    if Chosen(blocks, text, parses, answer) { ChoiceIsUnique(blocks, text, parses, answer, Extract(text, parses, lower)); }
  }

  /** Exactly one answer meets the rule. */
  lemma {:induction false} ChoiceIsUnique(blocks: seq<Block>, text: string, parses: string -> bool, a: string, b: string)
    requires Chosen(blocks, text, parses, a) && Chosen(blocks, text, parses, b)
    ensures a == b
  {
    if k :| 0 <= k < |blocks| && parses(Strip(blocks[k].content)) {
      var last := LastParsing(blocks, parses, k);
      assert LastParses(blocks, last, parses);
    }
  }

  /** A line without fences or outer white space is its own extract. */
  lemma PlainLine(text: string, parses: string -> bool, lower: string -> string)
    requires text != "" && '\n' !in text && text[0] != '`' && !IsSpace(text[0]) && !IsSpace(text[|text| - 1])
    ensures Extract(text, parses, lower) == text
  {
    SplitLine(text, "");
    assert text[0..] == text && Match(text).None?;
    assert [text][1..] == [] && Run(START, [text], lower) == START;
    assert TrimLeft(text) == text && TrimRight(text) == text;
  }

  lemma {:induction false} LastParsing(blocks: seq<Block>, parses: string -> bool, k: nat) returns (last: nat)
    requires k < |blocks| && parses(Strip(blocks[k].content))
    ensures k <= last < |blocks| && parses(Strip(blocks[last].content))
    ensures forall q :: last < q < |blocks| ==> !parses(Strip(blocks[q].content))
    decreases |blocks| - k
  {
    if q :| k < q < |blocks| && parses(Strip(blocks[q].content)) {
      last := LastParsing(blocks, parses, q);
    } else {
      last := k;
    }
  }

  /** A printed part that the extractor looks at: a block in Python, or without a language. */
  predicate PythonPart(p: Part) { p.Code? && p.tag in {"", "python", "py"} }

  lemma {:induction false} MeaningOfPython(parts: seq<Part>)
    ensures Filter(IsPython, Meaning(parts)) == Meaning(Filter(PythonPart, parts))
  {
    if parts != [] {
      var rest := parts[1..];
      MeaningOfPython(rest);
      FilterAppend(IsPython, PartBlocks(parts[0]), Meaning(rest));
      if PythonPart(parts[0]) {
        assert Filter(PythonPart, parts) == [parts[0]] + Filter(PythonPart, rest);
        assert ([parts[0]] + Filter(PythonPart, rest))[1..] == Filter(PythonPart, rest);
        FilterAll(IsPython, PartBlocks(parts[0]));
      } else {
        assert Filter(PythonPart, parts) == Filter(PythonPart, rest);
        FilterNone(IsPython, PartBlocks(parts[0]));
      }
    }
  }

  /** Of a printed document the extractor sees just the blocks in Python or without a language, in order. */
  lemma PythonBlocksOfPrint(parts: seq<Part>, lower: string -> string)
    requires forall i :: 0 <= i < |parts| ==> Printable(parts[i], lower)
    ensures PythonBlocks(Document(parts), lower) == Meaning(Filter(PythonPart, parts))
  {
    hide Printable, Document, Meaning, Run;
    ParseOfPrint(parts, lower);
    MeaningOfPython(parts);
  }

  /** Printing a final parsing Python block and extracting gives that block back. */
  lemma LastPrintedBlockIsExtracted(parts: seq<Part>, tag: string, body: seq<string>,
                                    parses: string -> bool, lower: string -> string)
    requires forall i :: 0 <= i < |parts| ==> Printable(parts[i], lower)
    requires Printable(Code(tag, body), lower) && (tag == "" || tag == "python" || tag == "py") && parses(Strip(Join(body)))
    ensures Extract(Document(parts + [Code(tag, body)]), parses, lower) == Strip(Join(body))
  {
    hide Printable, Document, Meaning, Strip, Chosen;
    var all := parts + [Code(tag, body)];
    ParseOfPrint(all, lower);
    MeaningSnoc(parts, tag, body);
    var last := Block(if tag == "" then None else Some(tag), Join(body));
    FilterAppend(IsPython, Meaning(parts), [last]);
    var blocks := PythonBlocks(Document(all), lower);
    assert blocks == Filter(IsPython, Meaning(parts)) + [last];
  }

  lemma {:induction false} MeaningSnoc(parts: seq<Part>, tag: string, body: seq<string>)
    ensures Meaning(parts + [Code(tag, body)])
         == Meaning(parts) + [Block(if tag == "" then None else Some(tag), Join(body))]
  {
    if parts == [] {
      assert parts + [Code(tag, body)] == [Code(tag, body)];
    } else {
      assert (parts + [Code(tag, body)])[1..] == parts[1..] + [Code(tag, body)];
      MeaningSnoc(parts[1..], tag, body);
    }
  }
}
