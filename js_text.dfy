/** The JavaScript string and array built-ins the chat widget relies on,
    written out over `seq<char>` with the edge cases of the ECMAScript
    definitions: `trim`, `split` on one character, `join`, `indexOf`,
    `includes`, `replace` of a literal string, `slice` with negative or
    out-of-range indices, and `Number.prototype.toString` for naturals. */
module JsText {
  import opened Wrappers

  /** The line terminators of ECMAScript (the characters `.` does not match). */
  predicate IsLineTerminator(c: char) {
    c == '\n' || c == '\r' || c == '\U{2028}' || c == '\U{2029}'
  }

  /** The characters `String.prototype.trim` removes and `\s` matches:
      WhiteSpace (including every space separator) and LineTerminator. */
  predicate IsWhiteSpace(c: char) {
    || c == '\t' || c == '\U{000B}' || c == '\U{000C}' || c == ' '
    || c == '\U{00A0}' || c == '\U{FEFF}' || c == '\U{1680}'
    || ('\U{2000}' <= c <= '\U{200A}')
    || c == '\U{202F}' || c == '\U{205F}' || c == '\U{3000}'
    || IsLineTerminator(c)
  }

  predicate IsDigit(c: char) {
    '0' <= c <= '9'
  }

  predicate AllDigits(s: string) {
    forall i :: 0 <= i < |s| ==> IsDigit(s[i])
  }

  /** `true` when `pat` occurs in `s` starting at index `i`. */
  predicate OccursAt(s: string, pat: string, i: nat) {
    i + |pat| <= |s| && s[i..i + |pat|] == pat
  }

  /** `s.startsWith(pat)` */
  predicate StartsWith(s: string, pat: string) {
    OccursAt(s, pat, 0)
  }

  /** The first index at or after `from` where `pat` occurs. */
  function IndexOfFrom(s: string, pat: string, from: nat): (r: Option<nat>)
    ensures r.Some? ==> from <= r.value && OccursAt(s, pat, r.value)
    ensures r.Some? ==> forall j :: from <= j < r.value ==> !OccursAt(s, pat, j)
    ensures r.None? ==> forall j :: from <= j ==> !OccursAt(s, pat, j)
    decreases |s| - from
  {
    if from + |pat| > |s| then None
    else if s[from..from + |pat|] == pat then Some(from)
    else IndexOfFrom(s, pat, from + 1)
  }

  /** `s.indexOf(pat)`, with `None` for JavaScript's `-1`. */
  function IndexOf(s: string, pat: string): Option<nat> {
    IndexOfFrom(s, pat, 0)
  }

  /** `s.includes(pat)` */
  predicate Includes(s: string, pat: string) {
    IndexOf(s, pat).Some?
  }

  lemma IncludesIff(s: string, pat: string)
    ensures Includes(s, pat) <==> exists j :: OccursAt(s, pat, j)
  {
  }

  /** `s.replace(pat, '')` for a literal string `pat`: only the first
      occurrence is removed. */
  function RemoveFirst(s: string, pat: string): (r: string)
    ensures !Includes(s, pat) ==> r == s
    ensures Includes(s, pat) ==> |r| == |s| - |pat|
    ensures Includes(s, pat) ==>
      var i := IndexOf(s, pat).value;
      && OccursAt(s, pat, i) && (forall j :: 0 <= j < i ==> !OccursAt(s, pat, j))
      && r == s[..i] + s[i + |pat|..]
  {
    match IndexOf(s, pat)
    case None => s
    case Some(i) => s[..i] + s[i + |pat|..]
  }

  /** `s.trimStart()` */
  function TrimStart(s: string): string {
    if s != [] && IsWhiteSpace(s[0]) then TrimStart(s[1..]) else s
  }

  /** `s.trimEnd()` */
  function TrimEnd(s: string): string {
    if s != [] && IsWhiteSpace(s[|s| - 1]) then TrimEnd(s[..|s| - 1]) else s
  }

  /** `s.trim()` */
  function Trim(s: string): string {
    TrimEnd(TrimStart(s))
  }

  /** `trimStart` cuts a run of white space off the front and stops at the
      first other character. */
  lemma {:induction false} TrimStartSpec(s: string)
    ensures var r := TrimStart(s);
      && |r| <= |s| && r == s[|s| - |r|..]
      && (r == [] || !IsWhiteSpace(r[0]))
      && (forall i :: 0 <= i < |s| - |r| ==> IsWhiteSpace(s[i]))
  {
    if s != [] && IsWhiteSpace(s[0]) {
      var t, r := s[1..], TrimStart(s[1..]);
      TrimStartSpec(t);
      assert t[|t| - |r|..] == s[|s| - |r|..];
      forall i | 1 <= i < |s| - |r|
        ensures IsWhiteSpace(s[i])
      {
        assert s[i] == t[i - 1];
      }
    }
  }

  /** `trimEnd` cuts a run of white space off the back and stops at the
      last other character. */
  lemma {:induction false} TrimEndSpec(s: string)
    ensures var r := TrimEnd(s);
      && |r| <= |s| && r == s[..|r|]
      && (r == [] || !IsWhiteSpace(r[|r| - 1]))
      && (forall i :: |r| <= i < |s| ==> IsWhiteSpace(s[i]))
  {
    if s != [] && IsWhiteSpace(s[|s| - 1]) {
      var t, r := s[..|s| - 1], TrimEnd(s[..|s| - 1]);
      TrimEndSpec(t);
      assert t[..|r|] == s[..|r|];
      forall i | |r| <= i < |s| - 1
        ensures IsWhiteSpace(s[i])
      {
        assert s[i] == t[i];
      }
    }
  }

  /** `trim` gives the piece of `s` that starts after its leading white
      space, with no white space at either end, everything cut off on
      either side being white space. */
  lemma TrimSpec(s: string)
    ensures var r, a := Trim(s), |s| - |TrimStart(s)|;
      && 0 <= a && a + |r| <= |s| && r == s[a..a + |r|]
      && (forall i :: 0 <= i < a ==> IsWhiteSpace(s[i]))
      && (forall i :: a + |r| <= i < |s| ==> IsWhiteSpace(s[i]))
      && (r == [] || (!IsWhiteSpace(r[0]) && !IsWhiteSpace(r[|r| - 1])))
  {
    var t := TrimStart(s);
    var r := TrimEnd(t);
    TrimStartSpec(s);
    TrimEndSpec(t);
    var a := |s| - |t|;
    assert t == s[a..];
    assert r == s[a..a + |r|];
    forall i | a + |r| <= i < |s|
      ensures IsWhiteSpace(s[i])
    {
      assert s[i] == t[i - a];
    }
  }

  /** Trimming twice is trimming once. */
  lemma TrimIdempotent(s: string)
    ensures Trim(Trim(s)) == Trim(s)
  {
    TrimSpec(s);
    var r := Trim(s);
    assert TrimStart(r) == r;
    assert TrimEnd(r) == r;
  }

  /** `parts.join(sep)` */
  function Join(parts: seq<string>, sep: string): string {
    if |parts| == 0 then ""
    else if |parts| == 1 then parts[0]
    else parts[0] + sep + Join(parts[1..], sep)
  }

  /** `s.split(d)` for a one-character separator. */
  function Split(s: string, d: char): (r: seq<string>)
    ensures |r| >= 1
    decreases |s|
  {
    if s == [] then [""]
    else if s[0] == d then [""] + Split(s[1..], d)
    else var t := Split(s[1..], d); [[s[0]] + t[0]] + t[1..]
  }

  /** No piece of a split holds the separator, and joining the pieces back
      with it gives the original string. */
  lemma {:induction false} SplitJoin(s: string, d: char)
    ensures forall i :: 0 <= i < |Split(s, d)| ==> d !in Split(s, d)[i]
    ensures Join(Split(s, d), [d]) == s
    decreases |s|
  {
    if s != [] {
      SplitJoin(s[1..], d);
      var t := Split(s[1..], d);
      if s[0] == d {
        assert [d] + Join(t, [d]) == s;
      } else {
        var r := [[s[0]] + t[0]] + t[1..];
        assert r[1..] == t[1..];
        assert Join(r, [d]) == [s[0]] + Join(t, [d]);
      }
    }
  }

  /** `parts.filter(Boolean)` on strings: the empty strings are dropped. */
  function NonEmpty(parts: seq<string>): (r: seq<string>)
    ensures forall i :: 0 <= i < |r| ==> r[i] != ""
    ensures forall x :: x in r <==> x in parts && x != ""
    ensures |r| <= |parts|
  {
    if parts == [] then []
    else if parts[0] == "" then NonEmpty(parts[1..])
    else [parts[0]] + NonEmpty(parts[1..])
  }

  lemma NonEmptyAppend(a: seq<string>, b: seq<string>)
    ensures NonEmpty(a + b) == NonEmpty(a) + NonEmpty(b)
  {
    if a != [] {
      assert (a + b)[0] == a[0];
      assert (a + b)[1..] == a[1..] + b;
      NonEmptyAppend(a[1..], b);
    } else {
      assert a + b == b;
    }
  }

  /** The last piece of a split keeps the text after the last separator, so
      splitting a concatenation fuses the last piece of the left part with
      the first piece of the right part. */
  lemma {:induction false} SplitAppend(a: string, b: string, d: char)
    ensures var sa, sb := Split(a, d), Split(b, d);
      Split(a + b, d) == sa[..|sa| - 1] + [sa[|sa| - 1] + sb[0]] + sb[1..]
    decreases |a|
  {
    if a == [] {
      var sb := Split(b, d);
      assert a + b == b;
      assert Split(a, d) == [""];
      assert "" + sb[0] == sb[0];
      assert [sb[0]] + sb[1..] == sb;
    } else {
      assert (a + b)[0] == a[0];
      assert (a + b)[1..] == a[1..] + b;
      SplitAppend(a[1..], b, d);
      if a[0] == d {
        SplitAppendSeparator(a, b, d);
      } else {
        SplitAppendOther(a, b, d);
      }
    }
  }

  lemma SplitAppendSeparator(a: string, b: string, d: char)
    requires a != [] && a[0] == d
    requires (a + b)[0] == a[0] && (a + b)[1..] == a[1..] + b
    requires var t, sb := Split(a[1..], d), Split(b, d);
      Split(a[1..] + b, d) == t[..|t| - 1] + [t[|t| - 1] + sb[0]] + sb[1..]
    ensures var sa, sb := Split(a, d), Split(b, d);
      Split(a + b, d) == sa[..|sa| - 1] + [sa[|sa| - 1] + sb[0]] + sb[1..]
  {
    var t, sb := Split(a[1..], d), Split(b, d);
    var u := Split(a[1..] + b, d);
    assert Split(a, d) == [""] + t;
    assert Split(a + b, d) == [""] + u;
    FuseCons("", t, sb, u);
  }

  /** Sequence bookkeeping for `SplitAppendSeparator`: a piece in front of
      the left part stays in front when the boundary pieces fuse. */
  lemma FuseCons(x: string, t: seq<string>, sb: seq<string>, u: seq<string>)
    requires |t| >= 1 && |sb| >= 1
    requires u == t[..|t| - 1] + [t[|t| - 1] + sb[0]] + sb[1..]
    ensures var sa := [x] + t;
      [x] + u == sa[..|sa| - 1] + [sa[|sa| - 1] + sb[0]] + sb[1..]
  {
    var sa := [x] + t;
    assert sa[..|sa| - 1] == [x] + t[..|t| - 1];
    assert sa[|sa| - 1] == t[|t| - 1];
  }

  lemma SplitAppendOther(a: string, b: string, d: char)
    requires a != [] && a[0] != d
    requires (a + b)[0] == a[0] && (a + b)[1..] == a[1..] + b
    requires var t, sb := Split(a[1..], d), Split(b, d);
      Split(a[1..] + b, d) == t[..|t| - 1] + [t[|t| - 1] + sb[0]] + sb[1..]
    ensures var sa, sb := Split(a, d), Split(b, d);
      Split(a + b, d) == sa[..|sa| - 1] + [sa[|sa| - 1] + sb[0]] + sb[1..]
  {
    var t, sb := Split(a[1..], d), Split(b, d);
    var u := Split(a[1..] + b, d);
    SplitCons(a, d);
    SplitCons(a + b, d);
    FuseHead([a[0]], t, sb, u);
  }

  /** Splitting a string that does not start with the separator: its first
      character joins the first piece of the rest. */
  lemma SplitCons(s: string, d: char)
    requires s != [] && s[0] != d
    ensures var t := Split(s[1..], d); Split(s, d) == [[s[0]] + t[0]] + t[1..]
  {
  }

  /** Sequence bookkeeping for `SplitAppendOther`: prepending a character to
      the first piece commutes with fusing the boundary pieces. */
  lemma FuseHead(c: string, t: seq<string>, sb: seq<string>, u: seq<string>)
    requires |t| >= 1 && |sb| >= 1
    requires u == t[..|t| - 1] + [t[|t| - 1] + sb[0]] + sb[1..]
    ensures var sa := [c + t[0]] + t[1..];
      [c + u[0]] + u[1..] == sa[..|sa| - 1] + [sa[|sa| - 1] + sb[0]] + sb[1..]
  {
    var sa := [c + t[0]] + t[1..];
    if |t| == 1 {
      assert u == [t[0] + sb[0]] + sb[1..];
      assert u[0] == t[0] + sb[0] && u[1..] == sb[1..];
      assert sa == [c + t[0]];
      assert sa[..|sa| - 1] == [];
      assert c + u[0] == sa[|sa| - 1] + sb[0];
    } else {
      assert u[0] == t[0];
      assert u[1..] == t[1..|t| - 1] + [t[|t| - 1] + sb[0]] + sb[1..];
      assert sa[..|sa| - 1] == [c + t[0]] + t[1..|t| - 1];
      assert sa[|sa| - 1] == t[|t| - 1];
    }
  }

  /** The decimal digits of a natural number, as `String(n)` writes them. */
  function DecimalString(n: nat): (r: string)
    ensures |r| >= 1 && AllDigits(r)
    ensures r[0] == '0' ==> n == 0
  {
    if n < 10 then [DigitChar(n)]
    else DecimalString(n / 10) + [DigitChar(n % 10)]
  }

  function DigitChar(d: nat): (c: char)
    requires d < 10
    ensures IsDigit(c)
  {
    ['0', '1', '2', '3', '4', '5', '6', '7', '8', '9'][d]
  }

  /** The number a string of decimal digits denotes. */
  function DigitsValue(s: string): nat
    requires AllDigits(s)
  {
    if s == [] then 0
    else DigitsValue(s[..|s| - 1]) * 10 + (s[|s| - 1] as int - '0' as int)
  }

  /** Reading back the digits `DecimalString` writes gives the number. */
  lemma {:induction false} DecimalStringValue(n: nat)
    ensures DigitsValue(DecimalString(n)) == n
  {
    var r := DecimalString(n);
    if n >= 10 {
      DecimalStringValue(n / 10);
      assert r[..|r| - 1] == DecimalString(n / 10);
    }
  }

  lemma AppendAssoc<T>(a: seq<T>, b: seq<T>, c: seq<T>)
    ensures (a + b) + c == a + (b + c)
  {
  }

  lemma AppendEmpty<T>(a: seq<T>)
    ensures [] + a == a && a + [] == a
  {
  }

  /** How `Array.prototype.slice` resolves a relative index against a length. */
  function RelativeIndex(k: int, len: nat): (r: nat)
    ensures r <= len
    ensures 0 <= k <= len ==> r == k
    ensures k < 0 && len + k >= 0 ==> r == len + k
  {
    if k < 0 then (if len + k < 0 then 0 else len + k)
    else if k > len then len
    else k
  }

  /** `s.slice(start, end)` */
  function Slice<T>(s: seq<T>, start: int, end: int): seq<T> {
    var from, to := RelativeIndex(start, |s|), RelativeIndex(end, |s|);
    if from < to then s[from..to] else []
  }

  /** `s.slice(start)` */
  function SliceFrom<T>(s: seq<T>, start: int): (r: seq<T>)
    ensures r == s[RelativeIndex(start, |s|)..]
  {
    Slice(s, start, |s|)
  }
}
