// The string operations of the Rust standard library the sources rely on.
module Text {
  import opened Wrappers

  // `char::is_whitespace`.
  predicate IsWhitespace(c: char) {
    var n := c as int;
    || 0x09 <= n <= 0x0D || n == 0x20 || n == 0x85 || n == 0xA0 || n == 0x1680 || 0x2000 <= n <= 0x200A
    || n == 0x2028 || n == 0x2029 || n == 0x202F || n == 0x205F || n == 0x3000
  }

  function TrimStart(s: string): string {
    if s != [] && IsWhitespace(s[0]) then TrimStart(s[1..]) else s
  }

  function TrimEnd(s: string): string {
    if s != [] && IsWhitespace(s[|s| - 1]) then TrimEnd(s[..|s| - 1]) else s
  }

  function Lower(s: string): string {
    if s == [] then []
    else [if 'A' <= s[0] <= 'Z' then (s[0] as int + 32) as char else s[0]] + Lower(s[1..])
  }

  function Trim(s: string): string {
    TrimEnd(TrimStart(s))
  }

  // `str::split_once`.
  function SplitOnce(s: string, c: char): (r: Option<(string, string)>)
    ensures r.None? ==> c !in s
    ensures r.Some? ==> s == r.value.0 + [c] + r.value.1 && c !in r.value.0
  {
    if s == [] then None
    else if s[0] == c then Some(([], s[1..]))
    else
      var rest := SplitOnce(s[1..], c);
      if rest.None? then None else Some(([s[0]] + rest.value.0, rest.value.1))
  }

  // `str::split`.
  function SplitAt(s: string, c: char): (r: seq<string>)
    ensures |r| >= 1
    decreases |s|
  {
    var once := SplitOnce(s, c);
    if once.None? then [s] else [once.value.0] + SplitAt(once.value.1, c)
  }

  function StripPrefix(s: string, p: string): (r: Option<string>)
    ensures r.Some? <==> |p| <= |s| && s[..|p|] == p
    ensures r.Some? ==> s == p + r.value
  {
    if |p| <= |s| && s[..|p|] == p then Some(s[|p|..]) else None
  }

  function Digits(s: string): (r: Option<nat>)
    ensures r.Some? <==> forall i :: 0 <= i < |s| ==> '0' <= s[i] <= '9'
  {
    if s == [] then Some(0)
    else
      var front, last := Digits(s[..|s| - 1]), s[|s| - 1];
      assert s == s[..|s| - 1] + [last];
      if front.Some? && '0' <= last <= '9' then Some(front.value * 10 + (last as int - '0' as int)) else None
  }

  const U64_LIMIT := 0x1_0000_0000_0000_0000

  // `str::parse::<u64>`: digits after an optional plus sign, within 64 bits.
  function ParseU64(s: string): (r: Option<nat>)
    ensures r.Some? ==> r.value < U64_LIMIT
  {
    var digits := if s != [] && s[0] == '+' then s[1..] else s;
    if digits == [] then None
    else
      var n := Digits(digits);
      if n.Some? && n.value < U64_LIMIT then n else None
  }
}
