/**
 What a parsed LCOV report means (src/coverage_capture.rs:370-564): it depends on which
 counts each block holds only, and what is covered is at most what there is.
 */
module LcovFacts {
  import opened Wrappers
  import opened Sorting
  import opened Merging
  import opened Counting
  import opened Lcov

  // ---------------------------------------------------------------- one block

  lemma JoinsAreJoins()
    ensures IsJoin(Max()) && IsJoin(Or())
  {
  }

  lemma InLineHits(body: seq<Line>, h: (nat, nat))
    ensures h in LineHits(body) <==> Da(h.0, h.1) in body
  {
  }

  lemma InBranchHits(body: seq<Line>, h: (BranchKey, bool))
    ensures h in BranchHits(body) <==> Brda(h.0, h.1) in body
  {
  }

  lemma InFunctionHits(body: seq<Line>, h: (string, nat))
    ensures h in FunctionHits(body) <==> Fnda(h.0, h.1) in body
  {
  }

  predicate IsCount(l: Line) {
    l.Fnda? || l.Da? || l.Brda?
  }

  // Permuting or repeating the counts of a block, or adding other lines, changes nothing.
  lemma BlockDependsOnCounts(path: string, a: seq<Line>, b: seq<Line>)
    requires forall l :: IsCount(l) ==> (l in a <==> l in b)
    ensures AccumOf(Block(path, a)) == AccumOf(Block(path, b))
  {
    JoinsAreJoins();
    forall h ensures h in LineHits(a) <==> h in LineHits(b) {
      InLineHits(a, h);
      InLineHits(b, h);
      assert IsCount(Da(h.0, h.1));
    }
    MergeDependsOnSet(Max(), LineHits(a), LineHits(b));
    forall h ensures h in BranchHits(a) <==> h in BranchHits(b) {
      InBranchHits(a, h);
      InBranchHits(b, h);
      assert IsCount(Brda(h.0, h.1));
    }
    MergeDependsOnSet(Or(), BranchHits(a), BranchHits(b));
    forall h ensures h in FunctionHits(a) <==> h in FunctionHits(b) {
      InFunctionHits(a, h);
      InFunctionHits(b, h);
      assert IsCount(Fnda(h.0, h.1));
    }
    MergeDependsOnSet(Max(), FunctionHits(a), FunctionHits(b));
  }

  // ---------------------------------------------------------------- the whole report

  // The same files are the same parse.
  lemma ParseIsDetermined(p: Parse, q: Parse, relative: string -> Option<string>, a: seq<Block>, b: seq<Block>)
    requires IsParseOf(p, relative, a) && IsParseOf(q, relative, b)
    requires FilesOf(relative, AccumList(a)) == FilesOf(relative, AccumList(b))
    ensures p == q
  {
    ByKeyTotal();
    ByKeyTransitive();
    StableUnique(ByKey(), p.files, q.files);
  }

  // Bodies with the same counts, whatever their order and number.
  ghost predicate SameCounts(a: seq<Line>, b: seq<Line>) {
    forall l :: IsCount(l) ==> (l in a <==> l in b)
  }

  ghost predicate Alike(a: Block, b: Block) {
    a.path == b.path && SameCounts(a.body, b.body)
  }

  // Two readers that differ in such bodies only.
  ghost predicate AlikeScans(s: Scanned, t: Scanned) {
    && s.open == t.open && s.saw == t.saw && |s.blocks| == |t.blocks|
    && forall i :: 0 <= i < |s.blocks| ==> Alike(s.blocks[i], t.blocks[i])
  }

  lemma SameAccums(s: Scanned, t: Scanned)
    requires AlikeScans(s, t)
    ensures AccumList(s.blocks) == AccumList(t.blocks)
  {
    forall i | 0 <= i < |s.blocks| ensures AccumOf(s.blocks[i]) == AccumOf(t.blocks[i]) {
      assert Alike(s.blocks[i], t.blocks[i]);
      BlockDependsOnCounts(s.blocks[i].path, s.blocks[i].body, t.blocks[i].body);
    }
  }

  lemma NextStaysAlike(s: Scanned, t: Scanned, l: Line)
    requires AlikeScans(s, t)
    ensures AlikeScans(NextScan(s, l), NextScan(t, l))
  {
  }

  lemma {:induction false} RestStaysAlike(a: seq<Line>, b: seq<Line>, rest: seq<Line>)
    requires AlikeScans(Scan(a), Scan(b))
    ensures AlikeScans(Scan(a + rest), Scan(b + rest))
  {
    if rest == [] {
      assert a + rest == a && b + rest == b;
    } else {
      var front, last := rest[..|rest| - 1], rest[|rest| - 1];
      RestStaysAlike(a, b, front);
      assert a + rest == (a + front) + [last] && b + rest == (b + front) + [last];
      ScanLast(a + front, last);
      ScanLast(b + front, last);
      NextStaysAlike(Scan(a + front), Scan(b + front), last);
    }
  }

  // Lines that neither open nor end a record.
  predicate InsideBlock(body: seq<Line>) {
    forall i :: 0 <= i < |body| ==> !body[i].SourceFile? && !body[i].EndOfRecord?
  }

  function NotBlank(body: seq<Line>): (r: seq<Line>)
    ensures forall l :: l in r <==> l in body && !l.Blank?
  {
    if body == [] then []
    else
      var front, last := body[..|body| - 1], body[|body| - 1];
      assert body == front + [last];
      if last.Blank? then NotBlank(front) else NotBlank(front) + [last]
  }

  // After the line that opens it, a block holds the lines that are not blank.
  lemma {:induction false} ScanLast(x: seq<Line>, l: Line)
    ensures Scan(x + [l]) == NextScan(Scan(x), l)
  {
    assert (x + [l])[..|x|] == x;
  }

  lemma {:induction false} ScanBlock(pre: seq<Line>, path: string, body: seq<Line>)
    requires InsideBlock(body)
    ensures Scan(pre + [SourceFile(path)] + body) == Scanned(Scan(pre).blocks + [Block(path, NotBlank(body))], true, true)
  {
    var head := pre + [SourceFile(path)];
    if body == [] {
      assert head + body == head;
      ScanLast(pre, SourceFile(path));
    } else {
      var front, last := body[..|body| - 1], body[|body| - 1];
      ScanBlock(pre, path, front);
      assert head + body == (head + front) + [last];
      ScanLast(head + front, last);
      NextInBlock(Scan(pre).blocks, path, NotBlank(front), last);
      NotBlankLast(body);
    }
  }

  lemma {:induction false} NotBlankLast(body: seq<Line>)
    requires body != []
    ensures var front, last := body[..|body| - 1], body[|body| - 1];
      NotBlank(body) == if last.Blank? then NotBlank(front) else NotBlank(front) + [last]
  {
  }

  lemma {:induction false} NextInBlock(blocks: seq<Block>, path: string, body: seq<Line>, l: Line)
    requires !l.SourceFile? && !l.EndOfRecord?
    ensures NextScan(Scanned(blocks + [Block(path, body)], true, true), l)
         == Scanned(blocks + [Block(path, if l.Blank? then body else body + [l])], true, true)
  {
    var all := blocks + [Block(path, body)];
    assert all[|all| - 1] == Block(path, body);
    assert all[|all| - 1 := Block(path, body + [l])] == blocks + [Block(path, body + [l])];
  }

  lemma BlocksAreAlike(pre: seq<Line>, path: string, x: seq<Line>, y: seq<Line>, post: seq<Line>)
    requires InsideBlock(x) && InsideBlock(y) && SameCounts(x, y)
    ensures AlikeScans(Scan(pre + [SourceFile(path)] + x + post), Scan(pre + [SourceFile(path)] + y + post))
  {
    ScanBlock(pre, path, x);
    ScanBlock(pre, path, y);
    RestStaysAlike(pre + [SourceFile(path)] + x, pre + [SourceFile(path)] + y, post);
  }

  // Stray text can only come before the first record.
  lemma StrayBefore(pre: seq<Line>, path: string, rest: seq<Line>)
    ensures Stray(pre + [SourceFile(path)] + rest) <==> Stray(pre)
  {
    var all := pre + [SourceFile(path)] + rest;
    assert all[|pre|] == SourceFile(path) && forall i :: 0 <= i < |pre| ==> all[i] == pre[i];
    if i: nat :| StrayAt(all, i) { assert StrayAt(pre, i); }
    if i: nat :| StrayAt(pre, i) { assert StrayAt(all, i); }
  }

  lemma ReadConcat(a: seq<string>, b: seq<string>)
    ensures ReadLines(a + b) == ReadLines(a) + ReadLines(b)
  {
  }

  // Two reports that differ in one block only, and there have the same counts in any order
  // and number: both are read or neither is, and what they are read as is the same.
  lemma ReportDependsOnCounts(pre: seq<string>, opens: string, x: seq<string>, y: seq<string>, post: seq<string>,
                              relative: string -> Option<string>, p: Parse, q: Parse)
    requires ReadLine(opens).SourceFile?
    requires InsideBlock(ReadLines(x)) && InsideBlock(ReadLines(y)) && SameCounts(ReadLines(x), ReadLines(y))
    ensures var a, b := ReadLines(pre + [opens] + x + post), ReadLines(pre + [opens] + y + post);
      && (Stray(a) <==> Stray(b)) && HasSource(a) && HasSource(b)
      && (IsParseOf(p, relative, Scan(a).blocks) && IsParseOf(q, relative, Scan(b).blocks) ==> p == q)
  {
    ReadReport(pre, opens, x, post);
    ReadReport(pre, opens, y, post);
    var path := ReadLine(opens).path;
    ReadAlike(ReadLines(pre), path, ReadLines(x), ReadLines(y), ReadLines(post));
    if IsParseOf(p, relative, Scan(ReadLines(pre + [opens] + x + post)).blocks)
      && IsParseOf(q, relative, Scan(ReadLines(pre + [opens] + y + post)).blocks) {
      ParsedAlike(ReadLines(pre), path, ReadLines(x), ReadLines(y), ReadLines(post), relative, p, q);
    }
  }

  lemma ReadAlike(pre: seq<Line>, path: string, x: seq<Line>, y: seq<Line>, post: seq<Line>)
    ensures var a, b := pre + [SourceFile(path)] + x + post, pre + [SourceFile(path)] + y + post;
      (Stray(a) <==> Stray(b)) && HasSource(a) && HasSource(b)
  {
    var head := pre + [SourceFile(path)];
    assert head + x + post == head + (x + post) && head + y + post == head + (y + post);
    StrayBefore(pre, path, x + post);
    StrayBefore(pre, path, y + post);
    assert (head + x + post)[|pre|].SourceFile? && (head + y + post)[|pre|].SourceFile?;
  }

  lemma ParsedAlike(pre: seq<Line>, path: string, x: seq<Line>, y: seq<Line>, post: seq<Line>,
                    relative: string -> Option<string>, p: Parse, q: Parse)
    requires InsideBlock(x) && InsideBlock(y) && SameCounts(x, y)
    requires IsParseOf(p, relative, Scan(pre + [SourceFile(path)] + x + post).blocks)
    requires IsParseOf(q, relative, Scan(pre + [SourceFile(path)] + y + post).blocks)
    ensures p == q
  {
    var s, t := Scan(pre + [SourceFile(path)] + x + post), Scan(pre + [SourceFile(path)] + y + post);
    BlocksAreAlike(pre, path, x, y, post);
    SameAccums(s, t);
    ParseIsDetermined(p, q, relative, s.blocks, t.blocks);
  }

  lemma ReadReport(pre: seq<string>, opens: string, body: seq<string>, post: seq<string>)
    ensures ReadLines(pre + [opens] + body + post) == ReadLines(pre) + [ReadLine(opens)] + ReadLines(body) + ReadLines(post)
  {
    ReadConcat(pre + [opens] + body, post);
    ReadConcat(pre + [opens], body);
    ReadConcat(pre, [opens]);
    assert ReadLines([opens]) == [ReadLine(opens)];
  }

  // ---------------------------------------------------------------- covered and total

  predicate Sound(c: Counts) {
    c.covered <= c.total
  }

  lemma FileIsSound(relative: string -> Option<string>, a: Accum, k: Kind)
    ensures Sound(CountsOf(FileOf(relative, a), k))
  {
    SubsetSize(CoveredKeys(a.lineCounts), a.lineCounts.Keys);
    SubsetSize(TakenKeys(a.branchTaken), a.branchTaken.Keys);
    SubsetSize(CoveredKeys(a.functionCounts), a.functionCounts.Keys);
  }

  lemma {:induction false} SumIsSound(files: seq<ParsedFile>, k: Kind)
    requires forall f :: f in files ==> Sound(CountsOf(f, k))
    ensures Sound(SumOfFiles(files, k))
  {
    if files != [] { SumIsSound(files[..|files| - 1], k); }
  }

  // Covered is at most total in every file and in every sum.
  lemma CoveredWithinTotal(p: Parse, relative: string -> Option<string>, blocks: seq<Block>)
    requires IsParseOf(p, relative, blocks)
    ensures forall f, k :: f in p.files ==> Sound(CountsOf(f, k))
    ensures Sound(p.lines) && Sound(p.branches) && Sound(p.functions)
  {
    var files := FilesOf(relative, AccumList(blocks));
    forall f, k | f in p.files ensures Sound(CountsOf(f, k)) {
      assert f in multiset(files);
      var i :| 0 <= i < |files| && files[i] == f;
      FileIsSound(relative, AccumList(blocks)[i], k);
    }
    SumIsSound(p.files, Lines);
    SumIsSound(p.files, Branches);
    SumIsSound(p.files, Functions);
  }
}
