/**
 * The two hand-written text scanners InventoryService uses to read the recipe
 * file: splitJsonObjects, which cuts a text into its top-level `{...}` objects
 * by counting braces, and extractValue, which finds a key and returns the text
 * of its value.  Strings are sequences of characters.
 */
module JsonScan {

  // ---------------------------------------------------------------------------
  // splitJsonObjects
  // ---------------------------------------------------------------------------

  /** Net brace depth of the first i characters of s: each '{' counts +1 and
      each '}' counts -1 (braces inside quotes are counted too). */
  function Depth(s: string, i: nat): int
    requires i <= |s|
  {
    if i == 0 then 0
    else Depth(s, i - 1) + (if s[i - 1] == '{' then 1 else if s[i - 1] == '}' then -1 else 0)
  }

  /** The last position before i at which the depth is zero (it is zero at 0). */
  function LastZero(s: string, i: nat): (z: nat)
    requires 0 < i <= |s|
    ensures z < i && Depth(s, z) == 0
    ensures forall x :: z < x < i ==> Depth(s, x) != 0
  {
    if Depth(s, i - 1) == 0 then i - 1 else LastZero(s, i - 1)
  }

  /** Position b holds the '}' that brings the depth from 1 back to 0. */
  predicate ClosesObject(s: string, b: nat)
    requires b < |s|
  {
    s[b] == '}' && Depth(s, b) == 1
  }

  /** The objects found in the first n characters of s, in order: one for each
      closing brace that returns the depth to zero, reaching back to the last
      point before it at which the depth was zero. */
  function Pieces(s: string, n: nat): seq<string>
    requires n <= |s|
  {
    if n == 0 then []
    else Pieces(s, n - 1) + (if ClosesObject(s, n - 1) then [s[LastZero(s, n - 1)..n]] else [])
  }

  /** A balanced object: it opens with '{', closes with '}', and its depth
      stays positive until its last character brings it back to zero. */
  predicate IsObject(p: string) {
    && |p| >= 2
    && p[0] == '{'
    && p[|p| - 1] == '}'
    && Depth(p, |p|) == 0
    && forall j :: 0 < j < |p| ==> Depth(p, j) > 0
  }

  /** The brace scanner: `braceCount` is the depth so far and `start` the
      position of the '{' that opened the current top-level object, or -1. */
  method SplitJsonObjects(input: string) returns (result: seq<string>)
    ensures result == Pieces(input, |input|)
  {
    result := [];
    var braceCount := 0;
    var start := -1;
    for i := 0 to |input|
      invariant braceCount == Depth(input, i)
      invariant braceCount <= 0 ==> start == -1
      invariant braceCount > 0 ==> 0 < i && start == LastZero(input, i)
      invariant result == Pieces(input, i)
    {
      if input[i] == '{' {
        if braceCount == 0 { start := i; }
        braceCount := braceCount + 1;
      } else if input[i] == '}' {
        braceCount := braceCount - 1;
        if braceCount == 0 && start != -1 {
          result := result + [input[start..i + 1]];
          start := -1;
        }
      }
    }
  }

  /** Between the last zero before i and i itself the depth stays positive. */
  lemma {:induction false} PositiveSinceLastZero(s: string, i: nat)
    requires 0 < i <= |s| && Depth(s, i) > 0
    ensures forall x :: LastZero(s, i) < x <= i ==> Depth(s, x) > 0
  {
    if Depth(s, i - 1) != 0 {
      PositiveSinceLastZero(s, i - 1);
    }
  }

  /** The depth inside a slice is the depth of the whole text, re-based. */
  lemma {:induction false} DepthOfSlice(s: string, a: nat, e: nat, j: nat)
    requires a <= e <= |s| && j <= e - a
    ensures Depth(s[a..e], j) == Depth(s, a + j) - Depth(s, a)
  {
    if j > 0 {
      DepthOfSlice(s, a, e, j - 1);
      assert s[a..e][j - 1] == s[a + j - 1];
    }
  }

  /** The object closed at b is balanced. */
  lemma ClosedPieceIsObject(s: string, b: nat)
    requires b < |s| && ClosesObject(s, b)
    ensures IsObject(s[LastZero(s, b)..b + 1])
  {
    var a := LastZero(s, b);
    var p := s[a..b + 1];
    PositiveSinceLastZero(s, b);
    assert Depth(s, a + 1) > 0;
    assert p[0] == '{';
    DepthOfSlice(s, a, b + 1, |p|);
    forall j | 0 < j < |p|
      ensures Depth(p, j) > 0
    {
      DepthOfSlice(s, a, b + 1, j);
    }
  }

  /** Every piece the scanner returns is one balanced object. */
  lemma {:induction false} PiecesAreObjects(s: string, n: nat)
    requires n <= |s|
    ensures forall p :: p in Pieces(s, n) ==> IsObject(p)
  {
    if n > 0 {
      PiecesAreObjects(s, n - 1);
      if ClosesObject(s, n - 1) {
        ClosedPieceIsObject(s, n - 1);
      }
    }
  }

  // ---------------------------------------------------------------------------
  // extractValue
  // ---------------------------------------------------------------------------

  /** k occurs in s at position p. */
  predicate OccursAt(s: string, k: string, p: nat) {
    p + |k| <= |s| && s[p..p + |k|] == k
  }

  /** The first position at or after `from` where k occurs in s, or -1
      (String.indexOf; the empty key occurs at `from`). */
  function IndexOfFrom(s: string, k: string, from: nat): (r: int)
    requires from <= |s|
    ensures r == -1 || (from <= r && OccursAt(s, k, r))
    ensures r == -1 ==> forall p :: from <= p ==> !OccursAt(s, k, p)
    ensures r != -1 ==> forall p :: from <= p < r ==> !OccursAt(s, k, p)
    decreases |s| - from
  {
    if from + |k| > |s| then -1
    else if s[from..from + |k|] == k then from
    else IndexOfFrom(s, k, from + 1)
  }

  function IndexOf(s: string, k: string): int {
    IndexOfFrom(s, k, 0)
  }

  predicate IsSeparator(c: char) {
    c == ' ' || c == ':' || c == '\n'
  }

  /** The first position at or after i that is not a space, colon or newline. */
  function SkipSeparators(s: string, i: nat): (j: nat)
    requires i <= |s|
    ensures i <= j <= |s|
    ensures forall x :: i <= x < j ==> IsSeparator(s[x])
    ensures j < |s| ==> !IsSeparator(s[j])
    decreases |s| - i
  {
    if i < |s| && IsSeparator(s[i]) then SkipSeparators(s, i + 1) else i
  }

  /** Number of double-quote characters in t. */
  function Quotes(t: string): nat {
    if t == [] then 0 else Quotes(t[..|t| - 1]) + (if t[|t| - 1] == '"' then 1 else 0)
  }

  lemma QuotesStep(s: string, st: nat, en: nat)
    requires st <= en < |s|
    ensures Quotes(s[st..en + 1]) == Quotes(s[st..en]) + (if s[en] == '"' then 1 else 0)
  {
    assert s[st..en + 1][..en - st] == s[st..en];
  }

  predicate IsDelimiter(c: char) {
    c == ',' || c == '}' || c == ']'
  }

  /** A value that starts at st is cut at j: s[j] is a comma or a closing
      bracket and it stands outside double quotes. */
  predicate CutsValue(s: string, st: nat, j: nat)
    requires st <= j < |s|
  {
    IsDelimiter(s[j]) && Quotes(s[st..j]) % 2 == 0
  }

  /** The first cut at or after j of the value that starts at st, or |s|. */
  function ValueEnd(s: string, st: nat, j: nat): (en: nat)
    requires st <= j <= |s|
    ensures j <= en <= |s|
    ensures en < |s| ==> CutsValue(s, st, en)
    ensures forall x :: j <= x < en ==> !CutsValue(s, st, x)
    decreases |s| - j
  {
    if j == |s| || CutsValue(s, st, j) then j else ValueEnd(s, st, j + 1)
  }

  /** ValueEnd is the only position with its two defining properties. */
  lemma FirstCutIsValueEnd(s: string, st: nat, en: nat)
    requires st <= en <= |s|
    requires en < |s| ==> CutsValue(s, st, en)
    requires forall x :: st <= x < en ==> !CutsValue(s, st, x)
    ensures en == ValueEnd(s, st, st)
  {
  }

  /** Characters String.trim removes: every code point up to and including the space. */
  predicate IsBlank(c: char) {
    c <= ' '
  }

  /** t without its leading blanks. */
  function TrimLeft(t: string): string {
    if t != [] && IsBlank(t[0]) then TrimLeft(t[1..]) else t
  }

  /** t without its trailing blanks. */
  function TrimRight(t: string): string {
    if t != [] && IsBlank(t[|t| - 1]) then TrimRight(t[..|t| - 1]) else t
  }

  /** String.trim: drops the blanks at both ends. */
  function Trim(t: string): string {
    TrimRight(TrimLeft(t))
  }

  /** TrimLeft drops a run of blanks from the front and stops at a non-blank. */
  lemma {:induction false} TrimLeftDropsBlanks(t: string)
    ensures var r := TrimLeft(t);
            && |r| <= |t| && r == t[|t| - |r|..]
            && (r == [] || !IsBlank(r[0]))
            && forall x :: 0 <= x < |t| - |r| ==> IsBlank(t[x])
    decreases |t|
  {
    if t != [] && IsBlank(t[0]) {
      TrimLeftDropsBlanks(t[1..]);
      var r := TrimLeft(t);
      assert t[1..][|t| - 1 - |r|..] == t[|t| - |r|..];
      forall x | 0 <= x < |t| - |r|
        ensures IsBlank(t[x])
      {
        if x > 0 {
          assert t[x] == t[1..][x - 1];
        }
      }
    }
  }

  /** TrimRight drops a run of blanks from the back and stops at a non-blank. */
  lemma {:induction false} TrimRightDropsBlanks(t: string)
    ensures var r := TrimRight(t);
            && |r| <= |t| && r == t[..|r|]
            && (r == [] || !IsBlank(r[|r| - 1]))
            && forall x :: |r| <= x < |t| ==> IsBlank(t[x])
    decreases |t|
  {
    if t != [] && IsBlank(t[|t| - 1]) {
      var u := t[..|t| - 1];
      TrimRightDropsBlanks(u);
      var r := TrimRight(t);
      assert u[..|r|] == t[..|r|];
      forall x | |r| <= x < |t|
        ensures IsBlank(t[x])
      {
        if x < |t| - 1 {
          assert t[x] == u[x];
        }
      }
    }
  }

  /** r is the slice of t that starts at a, and everything of t before and
      after it is blank. */
  predicate IsTrimmedSlice(t: string, r: string, a: nat) {
    && a + |r| <= |t|
    && r == t[a..a + |r|]
    && (forall x :: 0 <= x < a ==> IsBlank(t[x]))
    && (forall x :: a + |r| <= x < |t| ==> IsBlank(t[x]))
  }

  /** String.trim gives a slice of t that neither starts nor ends with a
      blank, obtained by dropping only blanks on either side. */
  lemma TrimIsSlice(t: string)
    ensures var r := Trim(t);
            && (r == [] || (!IsBlank(r[0]) && !IsBlank(r[|r| - 1])))
            && exists a :: IsTrimmedSlice(t, r, a)
  {
    var l := TrimLeft(t);
    var r := TrimRight(l);
    TrimLeftDropsBlanks(t);
    TrimRightDropsBlanks(l);
    assert r != [] ==> r[0] == l[0];
    var a := |t| - |l|;
    assert IsTrimmedSlice(t, r, a);
  }

  /** The value that starts at i: spaces, colons and newlines skipped, cut at
      the first comma or closing bracket outside double quotes, trimmed. */
  function ValueFrom(s: string, i: nat): string
    requires i <= |s|
  {
    var st := SkipSeparators(s, i);
    Trim(s[st..ValueEnd(s, st, st)])
  }

  /** The first occurrence of k is at p when k occurs there and nowhere before. */
  lemma IndexOfIs(s: string, k: string, p: nat)
    requires OccursAt(s, k, p)
    requires forall q :: 0 <= q < p ==> !OccursAt(s, k, q)
    ensures IndexOf(s, k) == p
  {
  }

  lemma {:induction false} QuotesAppend(a: string, b: string)
    ensures Quotes(a + b) == Quotes(a) + Quotes(b)
    decreases |b|
  {
    if b == [] {
      assert a + b == a;
    } else {
      QuotesAppend(a, b[..|b| - 1]);
      assert (a + b)[..|a + b| - 1] == a + b[..|b| - 1];
    }
  }

  lemma {:induction false} QuotesNone(t: string)
    requires '"' !in t
    ensures Quotes(t) == 0
  {
    if t != [] {
      var c := t[|t| - 1];
      assert c in t;
      assert forall x :: x in t[..|t| - 1] ==> x in t;
      QuotesNone(t[..|t| - 1]);
    }
  }

  /** A text that neither starts nor ends with a blank is its own trim. */
  lemma TrimKeeps(t: string)
    requires t != [] ==> !IsBlank(t[0]) && !IsBlank(t[|t| - 1])
    ensures Trim(t) == t
  {
  }

  /** A value without quotes or delimiters ends at the delimiter after it. */
  lemma PlainValueEnd(s: string, st: nat, v: string)
    requires st + |v| < |s| && s[st..st + |v|] == v
    requires '"' !in v && forall i :: 0 <= i < |v| ==> !IsDelimiter(v[i])
    requires IsDelimiter(s[st + |v|])
    ensures ValueEnd(s, st, st) == st + |v|
  {
    QuotesNone(v);
    forall x | st <= x < st + |v|
      ensures !CutsValue(s, st, x)
    {
      assert s[x] == v[x - st];
    }
    FirstCutIsValueEnd(s, st, st + |v|);
  }

  /** A quoted value ends at the delimiter after its closing quote, whatever
      delimiters stand between the quotes. */
  lemma QuotedValueEnd(s: string, st: nat, m: string)
    requires st + |m| + 2 < |s| && s[st..st + |m| + 2] == "\"" + m + "\""
    requires '"' !in m
    requires IsDelimiter(s[st + |m| + 2])
    ensures ValueEnd(s, st, st) == st + |m| + 2
  {
    var en := st + |m| + 2;
    forall x | st <= x < en
      ensures !CutsValue(s, st, x)
    {
      if x == st || x == en - 1 {
        assert s[x] == s[st..en][x - st];
      } else {
        var w := "\"" + m + "\"";
        assert s[st..x] == w[..x - st];
        assert w[..x - st] == "\"" + m[..x - st - 1];
        assert forall c :: c in m[..x - st - 1] ==> c in m;
        QuotesNone(m[..x - st - 1]);
        QuotesAppend("\"", m[..x - st - 1]);
      }
    }
    QuotesNone(m);
    QuotesAppend("\"", m);
    QuotesAppend("\"" + m, "\"");
    FirstCutIsValueEnd(s, st, en);
  }

  /** The first loop of extractValue: step over spaces, colons and newlines. */
  method SkipFrom(s: string, i: nat) returns (st: nat)
    requires i <= |s|
    ensures st == SkipSeparators(s, i)
  {
    st := i;
    while st < |s| && (s[st] == ' ' || s[st] == ':' || s[st] == '\n')
      invariant i <= st <= |s|
      invariant SkipSeparators(s, st) == SkipSeparators(s, i)
    {
      st := st + 1;
    }
  }

  /** The second loop of extractValue: scan to the first comma or closing
      bracket outside double quotes, toggling the in-quotes flag at each
      double quote. */
  method ScanValue(s: string, st: nat) returns (en: nat)
    requires st <= |s|
    ensures en == ValueEnd(s, st, st)
  {
    en := st;
    var q := false;
    while en < |s|
      invariant st <= en <= |s|
      invariant q <==> Quotes(s[st..en]) % 2 == 1
      invariant forall x :: st <= x < en ==> !CutsValue(s, st, x)
    {
      QuotesStep(s, st, en);
      if s[en] == '"' { q := !q; }
      if !q && (s[en] == ',' || s[en] == '}' || s[en] == ']') {
        assert CutsValue(s, st, en);
        break;
      }
      en := en + 1;
    }
    FirstCutIsValueEnd(s, st, en);
  }

  /** extractValue: "0" when the key is absent; otherwise the value that
      starts right after the first occurrence of the key. */
  method ExtractValue(s: string, k: string) returns (r: string)
    ensures IndexOf(s, k) == -1 ==> r == "0"
    ensures IndexOf(s, k) != -1 ==> r == ValueFrom(s, IndexOf(s, k) + |k|)
  {
    var at := IndexOf(s, k);
    if at == -1 {
      r := "0";
    } else {
      var from := at + |k|;
      var st := SkipFrom(s, from);
      var en := ScanValue(s, st);
      r := Trim(s[st..en]);
    }
  }
}
