/**
 * The functions of Go's `strings` package that the core relies on, over
 * strings as sequences of Unicode code points.
 */
module GoStrings {

  /** `unicode.IsSpace`: the Latin-1 spaces plus the other White_Space code points. */
  predicate IsSpace(c: char) {
    || c == '\t' || c == '\n' || c == '\U{000B}' || c == '\U{000C}' || c == '\r' || c == ' '
    || c == '\U{0085}' || c == '\U{00A0}' || c == '\U{1680}'
    || ('\U{2000}' <= c <= '\U{200A}')
    || c == '\U{2028}' || c == '\U{2029}' || c == '\U{202F}' || c == '\U{205F}' || c == '\U{3000}'
  }

  predicate NoSpace(s: string) {
    forall i :: 0 <= i < |s| ==> !IsSpace(s[i])
  }

  predicate AllSpace(s: string) {
    forall i :: 0 <= i < |s| ==> IsSpace(s[i])
  }

  /** The index of the first `c` in `s`, or -1 (`strings.IndexByte`). */
  function Index(s: string, c: char): (i: int)
    ensures -1 <= i < |s|
    ensures 0 <= i ==> s[i] == c
    ensures forall j :: 0 <= j < |s| && (i < 0 || j < i) ==> s[j] != c
  {
    if s == [] then -1
    else if s[0] == c then 0
    else
      var j := Index(s[1..], c);
      if j < 0 then -1 else j + 1
  }

  datatype CutResult = CutResult(before: string, after: string, found: bool)

  /** `strings.Cut(s, sep)` for a one-character separator. */
  function Cut(s: string, sep: char): (r: CutResult)
    ensures r.found <==> sep in s
    ensures r.found ==> s == r.before + [sep] + r.after && sep !in r.before
    ensures !r.found ==> r.before == s && r.after == []
  {
    var i := Index(s, sep);
    if i < 0 then CutResult(s, [], false)
    else
      assert s == s[..i] + [sep] + s[i + 1..];
      CutResult(s[..i], s[i + 1..], true)
  }

  /** `strings.HasPrefix(s, [c])` */
  predicate HasPrefix(s: string, c: char) {
    0 < |s| && s[0] == c
  }

  /** `strings.CutPrefix(s, [c])`: the rest of `s` after a leading `c`, or `s` itself. */
  function CutPrefix(s: string, c: char): (string, bool) {
    if HasPrefix(s, c) then (s[1..], true) else (s, false)
  }

  /** `strings.TrimLeft(s, " \t...")` for the space set: drops the leading run of spaces. */
  function TrimLeftSpace(s: string): (r: string)
    ensures |r| <= |s| && r == s[|s| - |r|..]
    ensures forall i :: 0 <= i < |s| - |r| ==> IsSpace(s[i])
    ensures r == [] || !IsSpace(r[0])
  {
    if s != [] && IsSpace(s[0]) then TrimLeftSpace(s[1..]) else s
  }

  /** Drops the trailing run of spaces. */
  function TrimRightSpace(s: string): (r: string)
    ensures |r| <= |s| && r == s[..|r|]
    ensures forall i :: |r| <= i < |s| ==> IsSpace(s[i])
    ensures r == [] || !IsSpace(r[|r| - 1])
  {
    if s != [] && IsSpace(s[|s| - 1]) then
      TrimRightSpace(s[..|s| - 1])
    else s
  }

  /** The number of leading spaces `TrimSpace` drops. */
  function LeadingSpace(s: string): (k: nat)
    ensures k <= |s| && forall i :: 0 <= i < k ==> IsSpace(s[i])
    ensures k == |s| || !IsSpace(s[k])
  {
    |s| - |TrimLeftSpace(s)|
  }

  /** `strings.TrimSpace`: `s` less its leading and trailing runs of spaces. */
  function TrimSpace(s: string): (r: string)
    ensures r == [] || (!IsSpace(r[0]) && !IsSpace(r[|r| - 1]))
    ensures LeadingSpace(s) + |r| <= |s|
    ensures forall k :: 0 <= k < |r| ==> r[k] == s[LeadingSpace(s) + k]
    ensures forall i :: LeadingSpace(s) + |r| <= i < |s| ==> IsSpace(s[i])
  {
    var l := TrimLeftSpace(s);
    var r := TrimRightSpace(l);
    assert forall k :: 0 <= k < |r| ==> r[k] == l[k];
    TrimmedTailIsSpace(s, l, r);
    r
  }

  /** What `TrimSpace` drops after its result is space. */
  lemma TrimmedTailIsSpace(s: string, l: string, r: string)
    requires |l| <= |s| && l == s[|s| - |l|..]
    requires |r| <= |l| && forall i :: |r| <= i < |l| ==> IsSpace(l[i])
    ensures forall i :: |s| - |l| + |r| <= i < |s| ==> IsSpace(s[i])
  {
    var lead := |s| - |l|;
    forall i | lead + |r| <= i < |s| ensures IsSpace(s[i]) {
      assert s[i] == l[i - lead];
    }
  }

  /** Trimming adds no character: one absent from `s` is absent from `TrimSpace(s)`. */
  lemma TrimSpaceOmits(s: string, c: char)
    requires c !in s
    ensures c !in TrimSpace(s)
  {
    var r := TrimSpace(s);
    var lead := LeadingSpace(s);
    forall k | 0 <= k < |r| ensures r[k] != c {
      assert r[k] == s[lead + k];
    }
  }

  /** The length of the leading run of non-space characters. */
  function SpanNonSpace(s: string): (k: nat)
    ensures k <= |s| && forall i :: 0 <= i < k ==> !IsSpace(s[i])
    ensures k == |s| || IsSpace(s[k])
  {
    if s == [] || IsSpace(s[0]) then 0
    else
      SpanNonSpace(s[1..]) + 1
  }

  /** `strings.Fields`: the maximal runs of non-space characters, in order. */
  function Fields(s: string): seq<string>
    decreases |s|
  {
    var t := TrimLeftSpace(s);
    if t == [] then []
    else
      var k := SpanNonSpace(t);
      [t[..k]] + Fields(t[k..])
  }

  lemma {:induction false} FieldsOfAllSpace(s: string)
    ensures Fields(s) == [] <==> AllSpace(s)
  {
    var t := TrimLeftSpace(s);
    assert s == s[..|s| - |t|] + t;
    if t != [] {
      assert !IsSpace(s[|s| - |t|]);
    }
  }

  /**
   * A non-empty string with no space at either end has exactly one field
   * exactly when it contains no space at all, and that field is the string.
   */
  lemma {:induction false} SingleField(s: string)
    requires s != [] && !IsSpace(s[0]) && !IsSpace(s[|s| - 1])
    ensures |Fields(s)| == 1 <==> NoSpace(s)
    ensures NoSpace(s) ==> Fields(s) == [s]
  {
    assert TrimLeftSpace(s) == s;
    var k := SpanNonSpace(s);
    if k == |s| {
      assert s[..k] == s && TrimLeftSpace(s[k..]) == [];
    } else {
      var rest := s[k..];
      assert rest[|rest| - 1] == s[|s| - 1];
      FieldsOfAllSpace(rest);
      assert !NoSpace(s) by { assert IsSpace(s[k]); }
    }
  }

  /** `strings.IndexAny(s, chars)`: the first position holding any of `chars`, or -1. */
  function IndexAny(s: string, chars: string): (i: int)
    ensures -1 <= i < |s|
    ensures 0 <= i ==> s[i] in chars
    ensures forall j :: 0 <= j < |s| && (i < 0 || j < i) ==> s[j] !in chars
  {
    if s == [] then -1
    else if s[0] in chars then 0
    else
      var j := IndexAny(s[1..], chars);
      if j < 0 then -1 else j + 1
  }

  /** `strings.TrimLeft(s, cutset)`: drops the leading run of characters of `cutset`. */
  function TrimLeft(s: string, cutset: string): (r: string)
    ensures |r| <= |s| && r == s[|s| - |r|..]
    ensures forall j :: 0 <= j < |s| - |r| ==> s[j] in cutset
    ensures r == [] || r[0] !in cutset
  {
    if s != [] && s[0] in cutset then TrimLeft(s[1..], cutset) else s
  }

  /** `strings.Lines`: `s` cut just after each newline; the last piece may lack one. */
  function Lines(s: string): seq<string>
    decreases |s|
  {
    if s == [] then []
    else
      var k := Index(s, '\n');
      if k < 0 then [s] else [s[..k + 1]] + Lines(s[k + 1..])
  }

  /** `unicode.ToUpper` on the ASCII letters; other code points are kept. */
  function UpperAscii(c: char): char {
    if 'a' <= c <= 'z' then (c as int - 32) as char else c
  }

  /** `strings.ToUpper`, code point by code point. */
  function ToUpper(s: string): (r: string)
    ensures |r| == |s| && forall i :: 0 <= i < |s| ==> r[i] == UpperAscii(s[i])
  {
    if s == [] then [] else [UpperAscii(s[0])] + ToUpper(s[1..])
  }

  /** `strings.ReplaceAll(s, [from], [to])` */
  function ReplaceAll(s: string, from: char, to: char): (r: string)
    ensures |r| == |s|
    ensures forall i :: 0 <= i < |s| ==> r[i] == if s[i] == from then to else s[i]
  {
    if s == [] then [] else [if s[0] == from then to else s[0]] + ReplaceAll(s[1..], from, to)
  }

  function DecimalDigit(d: nat): (c: char)
    requires d < 10
    ensures '0' <= c <= '9' && c as int - '0' as int == d
  {
    ('0' as int + d) as char
  }

  /** The number a string of decimal digits spells, most significant digit first. */
  function DigitsValue(s: string): nat
    requires forall i :: 0 <= i < |s| ==> '0' <= s[i] <= '9'
    decreases |s|
  {
    if s == [] then 0 else 10 * DigitsValue(s[..|s| - 1]) + (s[|s| - 1] as int - '0' as int)
  }

  /** `%d` (or `%v`) of a natural number: its digits, with no leading zero. */
  function Decimal(n: nat): (s: string)
    ensures s != [] && forall i :: 0 <= i < |s| ==> '0' <= s[i] <= '9'
    ensures DigitsValue(s) == n
    ensures s[0] == '0' ==> s == "0"
  {
    if n < 10 then [DecimalDigit(n)]
    else
      var init := Decimal(n / 10);
      var s := init + [DecimalDigit(n % 10)];
      assert s[..|s| - 1] == init;
      s
  }
}
