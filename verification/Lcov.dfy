/**
 Reading LCOV coverage (src/coverage_capture.rs:370-564): one accumulator per source
 file, where repeated counts keep the greatest and repeated branches the disjunction.
 */
module Lcov {
  import opened Wrappers
  import opened Text
  import opened Order
  import opened Sorting
  import opened Merging

  type BranchKey = (nat, nat, nat)

  datatype Line =
    | SourceFile(path: string) | EndOfRecord | Blank | TestName | Other
    | Fnda(name: string, count: nat) | Da(line: nat, count: nat) | Brda(key: BranchKey, executed: bool)

  // ---------------------------------------------------------------- one line of text

  function ReadFnda(rest: string): Line {
    var parts := SplitOnce(rest, ',');
    if parts.None? then Other
    else
      var count := ParseU64(Trim(parts.value.0));
      if count.None? then Other else Fnda(Trim(parts.value.1), count.value)
  }

  function ReadDa(rest: string): Line {
    var parts := SplitOnce(rest, ',');
    if parts.None? then Other
    else
      var line, count := ParseU64(Trim(parts.value.0)), ParseU64(Trim(SplitAt(Trim(parts.value.1), ',')[0]));
      if line.None? || count.None? then Other else Da(line.value, count.value)
  }

  function ReadBrda(rest: string): Line {
    var parts := SplitAt(rest, ',');
    if |parts| < 4 then Other
    else
      var line, block, branch := ParseU64(Trim(parts[0])), ParseU64(Trim(parts[1])), ParseU64(Trim(parts[2]));
      if line.None? || block.None? || branch.None? then Other
      else Brda((line.value, block.value, branch.value), Trim(parts[3]) != "-" && Trim(parts[3]) != "0")
  }

  function ReadLine(raw: string): Line {
    var text := Trim(raw);
    if text == "" then Blank
    else if StripPrefix(text, "SF:").Some? then SourceFile(StripPrefix(text, "SF:").value)
    else if text == "end_of_record" then EndOfRecord
    else if StripPrefix(text, "FNDA:").Some? then ReadFnda(StripPrefix(text, "FNDA:").value)
    else if StripPrefix(text, "DA:").Some? then ReadDa(StripPrefix(text, "DA:").value)
    else if StripPrefix(text, "BRDA:").Some? then ReadBrda(StripPrefix(text, "BRDA:").value)
    else if StripPrefix(text, "TN:").Some? then TestName
    else Other
  }

  function ReadLines(input: seq<string>): (lines: seq<Line>)
    ensures |lines| == |input| && forall i :: 0 <= i < |input| ==> lines[i] == ReadLine(input[i])
  {
    seq(|input|, i requires 0 <= i < |input| => ReadLine(input[i]))
  }

  // ---------------------------------------------------------------- accumulators

  datatype Accum = Accum(path: string, lineCounts: map<nat, nat>, branchTaken: map<BranchKey, bool>,
                         functionCounts: map<string, nat>)

  function Max(): (nat, nat) -> nat {
    (x, y) => if x >= y then x else y
  }

  function Or(): (bool, bool) -> bool {
    (x, y) => x || y
  }

  function Absorb(a: Accum, l: Line): Accum {
    match l
    case Fnda(name, count) => a.(functionCounts := Put(Max(), a.functionCounts, (name, count)))
    case Da(line, count) => a.(lineCounts := Put(Max(), a.lineCounts, (line, count)))
    case Brda(key, executed) => a.(branchTaken := Put(Or(), a.branchTaken, (key, executed)))
    case _ => a
  }

  // A source file and the lines up to the next one or to the end of its record.
  datatype Block = Block(path: string, body: seq<Line>)

  function LineHits(body: seq<Line>): seq<(nat, nat)> {
    if body == [] then []
    else
      var front, last := LineHits(body[..|body| - 1]), body[|body| - 1];
      if last.Da? then front + [(last.line, last.count)] else front
  }

  function BranchHits(body: seq<Line>): seq<(BranchKey, bool)> {
    if body == [] then []
    else
      var front, last := BranchHits(body[..|body| - 1]), body[|body| - 1];
      if last.Brda? then front + [(last.key, last.executed)] else front
  }

  function FunctionHits(body: seq<Line>): seq<(string, nat)> {
    if body == [] then []
    else
      var front, last := FunctionHits(body[..|body| - 1]), body[|body| - 1];
      if last.Fnda? then front + [(last.name, last.count)] else front
  }

  // What a block amounts to, kind by kind.
  function AccumOf(b: Block): Accum {
    Accum(b.path, Merge(Max(), LineHits(b.body)), Merge(Or(), BranchHits(b.body)), Merge(Max(), FunctionHits(b.body)))
  }

  // ---------------------------------------------------------------- files

  datatype Counts = Counts(total: nat, covered: nat)

  datatype ParsedFile = ParsedFile(path: string, relative: Option<string>, lines: Counts, branches: Counts,
                                   functions: Counts, details: seq<(string, bool)>)

  function CoveredKeys<K>(m: map<K, nat>): set<K> {
    set k | k in m && m[k] > 0
  }

  function TakenKeys(m: map<BranchKey, bool>): set<BranchKey> {
    set k | k in m && m[k]
  }

  function Details(m: map<string, nat>): seq<(string, bool)> {
    var names := Ascending(m.Keys);
    seq(|names|, i requires 0 <= i < |names| => (assert names[i] in names; (names[i], m[names[i]] > 0)))
  }

  function FileOf(relative: string -> Option<string>, a: Accum): ParsedFile {
    ParsedFile(a.path, relative(a.path),
               Counts(|a.lineCounts|, |CoveredKeys(a.lineCounts)|),
               Counts(|a.branchTaken|, |TakenKeys(a.branchTaken)|),
               Counts(|a.functionCounts|, |CoveredKeys(a.functionCounts)|),
               Details(a.functionCounts))
  }

  function SortKey(f: ParsedFile): string {
    f.relative.UnwrapOr(f.path)
  }

  function ByKey(): (ParsedFile, ParsedFile) -> bool {
    (a, b) => StrLe(SortKey(a), SortKey(b))
  }

  lemma ByKeyTotal()
    ensures Total(ByKey())
  {
    forall a, b ensures StrLe(SortKey(a), SortKey(b)) || StrLe(SortKey(b), SortKey(a)) {
      StrLeTotal(SortKey(a), SortKey(b));
    }
  }

  lemma ByKeyTransitive()
    ensures Transitive(ByKey())
  {
    forall a, b, c | StrLe(SortKey(a), SortKey(b)) && StrLe(SortKey(b), SortKey(c)) ensures StrLe(SortKey(a), SortKey(c)) {
      StrLeTransitive(SortKey(a), SortKey(b), SortKey(c));
    }
  }

  datatype Kind = Lines | Branches | Functions

  function CountsOf(f: ParsedFile, k: Kind): Counts {
    match k
    case Lines => f.lines
    case Branches => f.branches
    case Functions => f.functions
  }

  function SumOfFiles(files: seq<ParsedFile>, k: Kind): Counts {
    if files == [] then Counts(0, 0)
    else
      var front, last := SumOfFiles(files[..|files| - 1], k), CountsOf(files[|files| - 1], k);
      Counts(front.total + last.total, front.covered + last.covered)
  }

  method SumCounts(files: seq<ParsedFile>, k: Kind) returns (c: Counts)
    ensures c == SumOfFiles(files, k)
  {
    var total: nat, covered: nat := 0, 0;
    for i := 0 to |files|
      invariant Counts(total, covered) == SumOfFiles(files[..i], k)
    {
      assert files[..i + 1][..i] == files[..i];
      total := total + CountsOf(files[i], k).total;
      covered := covered + CountsOf(files[i], k).covered;
    }
    assert files[..|files|] == files;
    c := Counts(total, covered);
  }

  // ---------------------------------------------------------------- the blocks of a report

  datatype Scanned = Scanned(blocks: seq<Block>, open: bool, saw: bool)

  function NextScan(s: Scanned, l: Line): Scanned {
    match l
    case SourceFile(path) => Scanned(s.blocks + [Block(path, [])], true, true)
    case EndOfRecord => Scanned(s.blocks, false, true)
    case Blank => s
    case _ =>
      if s.open && s.blocks != [] then
        var last := s.blocks[|s.blocks| - 1];
        s.(blocks := s.blocks[|s.blocks| - 1 := last.(body := last.body + [l])])
      else s
  }

  function Scan(lines: seq<Line>): Scanned {
    if lines == [] then Scanned([], false, false) else NextScan(Scan(lines[..|lines| - 1]), lines[|lines| - 1])
  }

  // Text that is no test name, before any record.
  ghost predicate StrayAt(lines: seq<Line>, i: nat) {
    && i < |lines| && !lines[i].SourceFile? && !lines[i].EndOfRecord? && !lines[i].Blank? && !lines[i].TestName?
    && forall j :: 0 <= j < i ==> !lines[j].SourceFile? && !lines[j].EndOfRecord?
  }

  ghost predicate Stray(lines: seq<Line>) {
    exists i: nat :: StrayAt(lines, i)
  }

  lemma {:induction false} SawRecord(lines: seq<Line>)
    ensures Scan(lines).saw <==> exists i :: 0 <= i < |lines| && (lines[i].SourceFile? || lines[i].EndOfRecord?)
    ensures Scan(lines).blocks != [] <==> exists i :: 0 <= i < |lines| && lines[i].SourceFile?
    ensures Scan(lines).open ==> Scan(lines).saw && Scan(lines).blocks != []
  {
    if lines != [] {
      var front, last := lines[..|lines| - 1], lines[|lines| - 1];
      SawRecord(front);
      assert forall i :: 0 <= i < |front| ==> lines[i] == front[i];
    }
  }

  // ---------------------------------------------------------------- the code

  datatype Error = Empty | ToolMissing | Unparseable

  datatype Parse = Parse(files: seq<ParsedFile>, lines: Counts, branches: Counts, functions: Counts)

  function AllAccums(files: seq<Accum>, current: Option<Accum>): seq<Accum> {
    if current.Some? then files + [current.value] else files
  }

  ghost predicate AccumsOf(accums: seq<Accum>, blocks: seq<Block>) {
    |accums| == |blocks| && forall i :: 0 <= i < |blocks| ==> accums[i] == AccumOf(blocks[i])
  }

  ghost predicate Agrees(s: Scanned, files: seq<Accum>, current: Option<Accum>, saw: bool) {
    AccumsOf(AllAccums(files, current), s.blocks) && (s.open <==> current.Some?) && (s.saw <==> saw)
  }

  lemma OpenAgrees(s: Scanned, files: seq<Accum>, current: Option<Accum>, saw: bool, path: string)
    requires Agrees(s, files, current, saw)
    ensures Agrees(NextScan(s, SourceFile(path)), AllAccums(files, current), Some(Accum(path, map[], map[], map[])), true)
  {
  }

  lemma CloseAgrees(s: Scanned, files: seq<Accum>, current: Option<Accum>, saw: bool)
    requires Agrees(s, files, current, saw)
    ensures Agrees(NextScan(s, EndOfRecord), AllAccums(files, current), None, true)
  {
  }

  lemma AbsorbAgrees(s: Scanned, files: seq<Accum>, a: Accum, saw: bool, l: Line)
    requires Agrees(s, files, Some(a), saw) && !l.SourceFile? && !l.EndOfRecord? && !l.Blank?
    ensures Agrees(NextScan(s, l), files, Some(Absorb(a, l)), saw)
  {
    BlockAbsorbs(files, a, s.blocks, l);
  }

  lemma {:induction false} AccumAbsorbs(b: Block, l: Line)
    ensures AccumOf(b.(body := b.body + [l])) == Absorb(AccumOf(b), l)
  {
    assert (b.body + [l])[..|b.body|] == b.body;
    match l
    case Da(line, count) => MergeLast(Max(), LineHits(b.body), (line, count));
    case Brda(key, executed) => MergeLast(Or(), BranchHits(b.body), (key, executed));
    case Fnda(name, count) => MergeLast(Max(), FunctionHits(b.body), (name, count));
    case _ =>
  }

  lemma {:induction false} BlockAbsorbs(files: seq<Accum>, a: Accum, blocks: seq<Block>, l: Line)
    requires AccumsOf(files + [a], blocks)
    ensures var last := blocks[|blocks| - 1];
      AccumsOf(files + [Absorb(a, l)], blocks[|blocks| - 1 := last.(body := last.body + [l])])
  {
    var n := |files|;
    assert (files + [a])[n] == AccumOf(blocks[n]);
    AccumAbsorbs(blocks[n], l);
    assert forall i :: 0 <= i < n ==> (files + [a])[i] == AccumOf(blocks[i]);
    LastReplaced(files, Absorb(a, l), blocks, blocks[n].(body := blocks[n].body + [l]));
  }

  lemma {:induction false} LastReplaced(files: seq<Accum>, a: Accum, blocks: seq<Block>, b: Block)
    requires |blocks| == |files| + 1 && a == AccumOf(b)
    requires forall i :: 0 <= i < |files| ==> files[i] == AccumOf(blocks[i])
    ensures AccumsOf(files + [a], blocks[|files| := b])
  {
  }

  // One line that is not blank; `stray` tells the caller to give up.
  method ReadInto(files0: seq<Accum>, current0: Option<Accum>, saw0: bool, l: Line, ghost s: Scanned)
    returns (files: seq<Accum>, current: Option<Accum>, saw: bool, stray: bool)
    requires Agrees(s, files0, current0, saw0) && !l.Blank?
    ensures Agrees(NextScan(s, l), files, current, saw)
    ensures stray <==> !s.open && !s.saw && !l.SourceFile? && !l.EndOfRecord? && !l.TestName?
  {
    files, current, saw, stray := files0, current0, saw0, false;
    if l.SourceFile? {
      OpenAgrees(s, files, current, saw, l.path);
      if current.Some? { files := files + [current.value]; }
      current, saw := Some(Accum(l.path, map[], map[], map[])), true;
    } else if l.EndOfRecord? {
      CloseAgrees(s, files, current, saw);
      if current.Some? { files := files + [current.value]; }
      current, saw := None, true;
    } else if current.Some? {
      AbsorbAgrees(s, files, current.value, saw, l);
      current := Some(Absorb(current.value, l));
    } else if !saw {
      stray := !l.TestName?;
    }
  }

  method ReadRecords(lines: seq<Line>) returns (files: seq<Accum>, stray: bool)
    ensures stray <==> Stray(lines)
    ensures !stray ==> AccumsOf(files, Scan(lines).blocks)
  {
    files, stray := [], false;
    var current: Option<Accum> := None;
    var saw := false;
    var i := 0;
    while i < |lines|
      invariant 0 <= i <= |lines| && !stray
      invariant Agrees(Scan(lines[..i]), files, current, saw)
      invariant forall j: nat :: j < i ==> !StrayAt(lines, j)
    {
      assert lines[..i + 1][..i] == lines[..i];
      StrayHere(lines, i);
      if !lines[i].Blank? {
        files, current, saw, stray := ReadInto(files, current, saw, lines[i], Scan(lines[..i]));
        if stray { return; }
      }
      i := i + 1;
    }
    assert lines[..|lines|] == lines;
    files := AllAccums(files, current);
  }

  lemma StrayHere(lines: seq<Line>, i: nat)
    requires i < |lines|
    ensures StrayAt(lines, i) <==>
      && !lines[i].SourceFile? && !lines[i].EndOfRecord? && !lines[i].Blank? && !lines[i].TestName?
      && !Scan(lines[..i]).saw
    ensures Scan(lines[..i]).open ==> Scan(lines[..i]).saw
  {
    SawRecord(lines[..i]);
    assert forall j :: 0 <= j < i ==> lines[..i][j] == lines[j];
  }

  function FilesOf(relative: string -> Option<string>, accums: seq<Accum>): (files: seq<ParsedFile>)
    ensures |files| == |accums| && forall i :: 0 <= i < |accums| ==> files[i] == FileOf(relative, accums[i])
  {
    seq(|accums|, i requires 0 <= i < |accums| => FileOf(relative, accums[i]))
  }

  function AccumList(blocks: seq<Block>): (accums: seq<Accum>)
    ensures AccumsOf(accums, blocks)
  {
    seq(|blocks|, i requires 0 <= i < |blocks| => AccumOf(blocks[i]))
  }

  // The same files in key order, and in the order given where keys agree.
  ghost predicate StablySorted(sorted: seq<ParsedFile>, files: seq<ParsedFile>) {
    && multiset(sorted) == multiset(files) && NeighboursOrdered(ByKey(), sorted)
    && forall f :: Ties(ByKey(), f, sorted) == Ties(ByKey(), f, files)
  }

  // The parse of a report: its blocks as files in key order, with their sums.
  ghost predicate IsParseOf(p: Parse, relative: string -> Option<string>, blocks: seq<Block>) {
    && StablySorted(p.files, FilesOf(relative, AccumList(blocks)))
    && p.lines == SumOfFiles(p.files, Lines) && p.branches == SumOfFiles(p.files, Branches)
    && p.functions == SumOfFiles(p.files, Functions)
  }

  // Some line opens a record.
  ghost predicate HasSource(lines: seq<Line>) {
    exists i :: 0 <= i < |lines| && lines[i].SourceFile?
  }

  predicate AllBlank(lines: seq<Line>) {
    forall i :: 0 <= i < |lines| ==> lines[i].Blank?
  }

  method ParseLines(lines: seq<Line>, toolMissing: bool, relative: string -> Option<string>)
    returns (r: Result<Parse, Error>)
    ensures r == Err(Empty) <==> AllBlank(lines)
    ensures r == Err(ToolMissing) <==> toolMissing && !AllBlank(lines)
    ensures r.Ok? <==> !toolMissing && !Stray(lines) && HasSource(lines)
    ensures r.Ok? ==> IsParseOf(r.value, relative, Scan(lines).blocks)
  {
    SawRecord(lines);
    if AllBlank(lines) { return Err(Empty); }
    if toolMissing { return Err(ToolMissing); }
    var accums, stray := ReadRecords(lines);
    if stray || accums == [] { return Err(Unparseable); }
    var parse := Summarize(accums, relative, Scan(lines).blocks);
    r := Ok(parse);
  }

  lemma SortIsStable(files: seq<ParsedFile>)
    requires Total(ByKey())
    ensures StablySorted(Sort(ByKey(), files), files)
  {
    ByKeyTransitive();
    forall f ensures Ties(ByKey(), f, Sort(ByKey(), files)) == Ties(ByKey(), f, files) {
      SortTies(ByKey(), f, files);
    }
  }

  method Summarize(accums: seq<Accum>, relative: string -> Option<string>, ghost blocks: seq<Block>) returns (p: Parse)
    requires AccumsOf(accums, blocks)
    ensures IsParseOf(p, relative, blocks)
  {
    assert accums == AccumList(blocks);
    ByKeyTotal();
    var files := Sort(ByKey(), FilesOf(relative, accums));
    SortIsStable(FilesOf(relative, accums));
    var lines := SumCounts(files, Lines);
    var branches := SumCounts(files, Branches);
    var functions := SumCounts(files, Functions);
    p := Parse(files, lines, branches, functions);
  }

  lemma BlankExactly(raw: string)
    ensures ReadLine(raw).Blank? <==> Trim(raw) == ""
  {
  }

  // `toolMissing` is the scan for the tool's own error message.
  method ParseLcov(input: seq<string>, toolMissing: bool, relative: string -> Option<string>)
    returns (r: Result<Parse, Error>)
    ensures r == Err(Empty) <==> forall i :: 0 <= i < |input| ==> Trim(input[i]) == ""
    ensures r == Err(ToolMissing) <==> toolMissing && !(forall i :: 0 <= i < |input| ==> Trim(input[i]) == "")
    ensures r.Ok? <==> !toolMissing && !Stray(ReadLines(input)) && HasSource(ReadLines(input))
    ensures r.Ok? ==> IsParseOf(r.value, relative, Scan(ReadLines(input)).blocks)
  {
    var lines := ReadLines(input);
    forall i | 0 <= i < |input| ensures lines[i].Blank? <==> Trim(input[i]) == "" { BlankExactly(input[i]); }
    r := ParseLines(lines, toolMissing, relative);
  }
}
