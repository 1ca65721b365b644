// Paths as text and as lists of `/`-separated segments.
module Paths {

  // `str::split('/')`.
  function Split(s: string): (r: seq<string>)
    ensures |r| >= 1
    ensures forall i :: 0 <= i < |r| ==> '/' !in r[i]
  {
    if s == [] then [[]]
    else if s[0] == '/' then [[]] + Split(s[1..])
    else
      var rest := Split(s[1..]);
      [[s[0]] + rest[0]] + rest[1..]
  }

  // `[_]::join("/")`.
  function Join(segments: seq<string>): string {
    if segments == [] then []
    else if |segments| == 1 then segments[0]
    else segments[0] + "/" + Join(segments[1..])
  }

  lemma {:induction false} JoinSplit(s: string)
    ensures Join(Split(s)) == s
  {
    if s != [] {
      JoinSplit(s[1..]);
      var rest, whole := Split(s[1..]), Split(s);
      if s[0] == '/' {
        assert whole[1..] == rest;
      } else if |rest| > 1 {
        assert whole[1..] == rest[1..];
      }
    }
  }

  lemma SplitOne(c: char, s: string)
    requires c != '/'
    ensures Split([c] + s) == [[c] + Split(s)[0]] + Split(s)[1..]
  {
  }

  lemma {:induction false} SplitPrefix(a: string, s: string)
    requires '/' !in a
    ensures Split(a + s) == [a + Split(s)[0]] + Split(s)[1..]
  {
    if a == [] {
      assert a + s == s && a + Split(s)[0] == Split(s)[0];
      assert Split(s) == [Split(s)[0]] + Split(s)[1..];
    } else {
      var rest := a[1..];
      SplitPrefix(rest, s);
      SplitOne(a[0], rest + s);
      assert a + s == [a[0]] + (rest + s);
      assert a + Split(s)[0] == [a[0]] + (rest + Split(s)[0]);
    }
  }

  // Segments without a slash are recovered from the joined text.
  lemma {:induction false} SplitJoin(segments: seq<string>)
    requires segments != [] && forall i :: 0 <= i < |segments| ==> '/' !in segments[i]
    ensures Split(Join(segments)) == segments
  {
    if |segments| == 1 {
      SplitPrefix(segments[0], []);
      assert segments[0] + [] == segments[0];
    } else {
      SplitJoin(segments[1..]);
      var tail := "/" + Join(segments[1..]);
      assert tail[1..] == Join(segments[1..]);
      assert Join(segments) == segments[0] + tail;
      SplitPrefix(segments[0], tail);
      assert Split(tail) == [[]] + segments[1..];
      assert segments[0] + [] == segments[0];
      assert segments == [segments[0]] + segments[1..];
    }
  }

  // No empty segment, none with a slash: what a directory of a repository path is made of.
  predicate Plain(segments: seq<string>) {
    forall i :: 0 <= i < |segments| ==> segments[i] != [] && '/' !in segments[i]
  }

  lemma JoinInjective(a: seq<string>, b: seq<string>)
    requires Plain(a) && Plain(b) && Join(a) == Join(b)
    ensures a == b
  {
    JoinNotEmpty(a);
    JoinNotEmpty(b);
    if a != [] {
      SplitJoin(a);
      SplitJoin(b);
    }
  }

  lemma {:induction false} JoinNotEmpty(a: seq<string>)
    requires Plain(a)
    ensures Join(a) == [] <==> a == []
  {
  }

  // `filter(|s| !s.is_empty())`.
  function NonEmpty(segments: seq<string>): seq<string> {
    if segments == [] then []
    else
      var front, last := NonEmpty(segments[..|segments| - 1]), segments[|segments| - 1];
      if last == [] then front else front + [last]
  }

  lemma {:induction false} NonEmptyIsPlain(segments: seq<string>)
    requires forall i :: 0 <= i < |segments| ==> '/' !in segments[i]
    ensures Plain(NonEmpty(segments))
  {
    if segments != [] {
      var front, last := segments[..|segments| - 1], segments[|segments| - 1];
      NonEmptyIsPlain(front);
      if last != [] { PlainGrows(NonEmpty(front), last); }
    }
  }

  lemma {:induction false} PlainGrows(a: seq<string>, x: string)
    requires Plain(a) && x != [] && '/' !in x
    ensures Plain(a + [x])
  {
  }

  lemma {:induction false} PlainUnfiltered(segments: seq<string>)
    requires forall i :: 0 <= i < |segments| ==> segments[i] != []
    ensures NonEmpty(segments) == segments
  {
    if segments != [] {
      var front, last := segments[..|segments| - 1], segments[|segments| - 1];
      PlainUnfiltered(front);
      assert segments == front + [last];
    }
  }
}
