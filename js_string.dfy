/**
 * The pieces of JavaScript string semantics the front end relies on:
 * the regular-expression classes `\d`, `\w` and `\s`, `String.prototype.trim`,
 * `split(' ')` and `join(' ')`, the decimal rendering of a whole number in a
 * template literal, and `Array.prototype.find` / `filter`.
 * Strings are sequences of Unicode scalar values.
 */
module JsString {

  datatype Option<T> = None | Some(value: T)

  /** `\d`: an ASCII decimal digit. */
  predicate IsDigit(c: char) {
    '0' <= c <= '9'
  }

  /** `\w` without the `u` flag: `[A-Za-z0-9_]`. */
  predicate IsWordChar(c: char) {
    'a' <= c <= 'z' || 'A' <= c <= 'Z' || IsDigit(c) || c == '_'
  }

  /** `\s`, and the set `trim` removes: ECMAScript WhiteSpace and LineTerminator. */
  predicate IsWhitespace(c: char) {
    c == ' ' || c == '\t' || c == '\n' || c == '\U{B}' || c == '\U{C}' || c == '\r'
    || c == '\U{A0}' || c == '\U{1680}' || ('\U{2000}' <= c <= '\U{200A}')
    || c == '\U{2028}' || c == '\U{2029}' || c == '\U{202F}' || c == '\U{205F}'
    || c == '\U{3000}' || c == '\U{FEFF}'
  }

  predicate AllWhitespace(s: string) {
    forall i :: 0 <= i < |s| ==> IsWhitespace(s[i])
  }

  // ---------------------------------------------------------------- trim

  function TrimStart(s: string): (r: string)
    ensures |r| <= |s|
  {
    if s != [] && IsWhitespace(s[0]) then TrimStart(s[1..]) else s
  }

  function TrimEnd(s: string): (r: string)
    ensures |r| <= |s|
  {
    if s != [] && IsWhitespace(s[|s| - 1]) then TrimEnd(s[..|s| - 1]) else s
  }

  /** `s.trim()`: `s` without its leading and trailing whitespace. */
  function Trim(s: string): (r: string)
    ensures |r| <= |s|
  {
    TrimEnd(TrimStart(s))
  }

  /** `TrimStart` removes a whitespace prefix and stops at a non-whitespace character. */
  lemma {:induction false} TrimStartFacts(s: string)
    ensures var r := TrimStart(s);
      && r == s[|s| - |r|..]
      && (r == [] || !IsWhitespace(r[0]))
      && AllWhitespace(s[..|s| - |r|])
  {
    if s != [] && IsWhitespace(s[0]) {
      TrimStartFacts(s[1..]);
      var r := TrimStart(s[1..]);
      assert s[1..][..|s| - 1 - |r|] == s[1..|s| - |r|];
    }
  }

  /** `TrimEnd` removes a whitespace suffix and stops at a non-whitespace character. */
  lemma {:induction false} TrimEndFacts(s: string)
    ensures var r := TrimEnd(s);
      && r == s[..|r|]
      && (r == [] || !IsWhitespace(r[|r| - 1]))
      && AllWhitespace(s[|r|..])
  {
    if s != [] && IsWhitespace(s[|s| - 1]) {
      TrimEndFacts(s[..|s| - 1]);
      var r := TrimEnd(s[..|s| - 1]);
      assert s[..|s| - 1][|r|..] == s[|r|..|s| - 1];
    }
  }

  /** The trimmed string neither starts nor ends with whitespace. */
  lemma TrimEnds(s: string)
    ensures Trim(s) == [] || (!IsWhitespace(Trim(s)[0]) && !IsWhitespace(Trim(s)[|Trim(s)| - 1]))
  {
    var a := TrimStart(s);
    TrimStartFacts(s);
    TrimEndFacts(a);
    var r := TrimEnd(a);
    if r != [] {
      assert r[0] == a[0];
    }
  }

  /** The trimmed string is empty exactly when the string is all whitespace. */
  lemma TrimBlank(s: string)
    ensures Trim(s) == [] <==> AllWhitespace(s)
  {
    var a := TrimStart(s);
    TrimStartFacts(s);
    TrimEndFacts(a);
    var r := TrimEnd(a);
    if r == [] {
      assert a == a[|r|..];
      assert s == s[..|s| - |a|] + a;
    } else {
      assert r[0] == a[0] == s[|s| - |a|];
    }
  }

  /** A string with no whitespace at either end is its own trim. */
  lemma TrimOfTrimmed(s: string)
    requires s == [] || (!IsWhitespace(s[0]) && !IsWhitespace(s[|s| - 1]))
    ensures Trim(s) == s
  {
  }

  // ------------------------------------------------------- concatenation

  lemma AppendAssoc<T>(a: seq<T>, b: seq<T>, c: seq<T>)
    ensures (a + b) + c == a + (b + c)
  {
  }

  lemma AppendParts<T>(a: seq<T>, b: seq<T>)
    ensures (a + b)[..|a|] == a && (a + b)[|a|..] == b
  {
  }

  // --------------------------------------------------------- lower case

  /** U+212A KELVIN SIGN, whose lower case is the ASCII letter `k`. */
  const KelvinSign: char := '\U{212A}'
  /** U+0130 LATIN CAPITAL LETTER I WITH DOT ABOVE, lower-cased to `i` + U+0307. */
  const CapitalIWithDot: char := '\U{130}'
  const CombiningDotAbove: char := '\U{307}'

  /**
   * `toLowerCase` of one character, exact for every character whose lower
   * case is or contains an ASCII character; every other character is kept
   * as it is (its lower case is then neither `\w` nor `\s` either way).
   */
  function LowerChar(c: char): (r: string)
    ensures |r| >= 1
    ensures forall i :: 0 <= i < |r| ==> !('A' <= r[i] <= 'Z') && r[i] != KelvinSign && r[i] != CapitalIWithDot
  {
    if 'A' <= c <= 'Z' then [(c as int + 32) as char]
    else if c == KelvinSign then "k"
    else if c == CapitalIWithDot then ['i', CombiningDotAbove]
    else [c]
  }

  /** `s.toLowerCase()`, character by character. */
  function ToLower(s: string): string {
    if s == [] then [] else LowerChar(s[0]) + ToLower(s[1..])
  }

  /** The lower case holds no upper-case letter of the three kinds. */
  lemma {:induction false} ToLowerIsLower(s: string)
    ensures forall i :: 0 <= i < |ToLower(s)| ==> var c := ToLower(s)[i]; !('A' <= c <= 'Z') && c != KelvinSign && c != CapitalIWithDot
  {
    if s != [] {
      ToLowerIsLower(s[1..]);
      var l, r := LowerChar(s[0]), ToLower(s[1..]);
      assert ToLower(s) == l + r;
      forall i | 0 <= i < |l + r|
        ensures var c := (l + r)[i]; !('A' <= c <= 'Z') && c != KelvinSign && c != CapitalIWithDot
      {
        if i >= |l| {
          assert (l + r)[i] == r[i - |l|];
        }
      }
    }
  }

  lemma {:induction false} ToLowerConcat(a: string, b: string)
    ensures ToLower(a + b) == ToLower(a) + ToLower(b)
  {
    if a == [] {
      assert a + b == b;
    } else {
      assert (a + b)[0] == a[0] && (a + b)[1..] == a[1..] + b;
      ToLowerConcat(a[1..], b);
    }
  }

  /** Lower-casing a string twice is lower-casing it once. */
  lemma {:induction false} ToLowerIdempotent(s: string)
    ensures ToLower(ToLower(s)) == ToLower(s)
  {
    if s != [] {
      var l := LowerChar(s[0]);
      ToLowerIdempotent(s[1..]);
      ToLowerConcat(l, ToLower(s[1..]));
      ToLowerFixed(l);
    }
  }

  /** A string without upper-case letters of the three kinds is its own lower case. */
  lemma {:induction false} ToLowerFixed(s: string)
    requires forall i :: 0 <= i < |s| ==> !('A' <= s[i] <= 'Z') && s[i] != KelvinSign && s[i] != CapitalIWithDot
    ensures ToLower(s) == s
  {
    if s != [] {
      ToLowerFixed(s[1..]);
    }
  }

  // ------------------------------------------------------ split and join

  /** `s.split(' ')`: the pieces between single spaces, empty pieces included. */
  function Split(s: string): (r: seq<string>)
    ensures |r| >= 1
    ensures |r| == 1 <==> ' ' !in s
  {
    if s == [] then [""]
    else
      var rest := Split(s[1..]);
      if s[0] == ' ' then [""] + rest
      else
        assert ' ' in s[1..] ==> ' ' in s;
        [[s[0]] + rest[0]] + rest[1..]
  }

  /** No piece of `s.split(' ')` holds a space. */
  lemma {:induction false} SplitPiecesHaveNoSpace(s: string)
    ensures forall i, j :: 0 <= i < |Split(s)| && 0 <= j < |Split(s)[i]| ==> Split(s)[i][j] != ' '
  {
    if s != [] {
      SplitPiecesHaveNoSpace(s[1..]);
      var rest := Split(s[1..]);
      if s[0] != ' ' {
        assert forall j :: 1 <= j < |[s[0]] + rest[0]| ==> ([s[0]] + rest[0])[j] == rest[0][j - 1];
      }
    }
  }

  /** Every piece of `s.split(' ')` is made of characters of `s`. */
  lemma {:induction false} SplitKeepsProperty(s: string, p: char -> bool)
    requires forall i :: 0 <= i < |s| ==> p(s[i])
    ensures forall i, j :: 0 <= i < |Split(s)| && 0 <= j < |Split(s)[i]| ==> p(Split(s)[i][j])
  {
    if s != [] {
      SplitKeepsProperty(s[1..], p);
      var rest := Split(s[1..]);
      if s[0] != ' ' {
        assert forall j :: 1 <= j < |[s[0]] + rest[0]| ==> ([s[0]] + rest[0])[j] == rest[0][j - 1];
      }
    }
  }

  /** `ws.join(' ')`. */
  function Join(ws: seq<string>): string {
    if |ws| == 0 then ""
    else if |ws| == 1 then ws[0]
    else ws[0] + " " + Join(ws[1..])
  }

  lemma JoinCons(w: string, ws: seq<string>)
    requires ws != []
    ensures Join([w] + ws) == w + " " + Join(ws)
  {
    assert ([w] + ws)[1..] == ws;
  }

  lemma JoinPrependChar(c: char, ws: seq<string>)
    requires ws != []
    ensures Join([[c] + ws[0]] + ws[1..]) == [c] + Join(ws)
  {
    if |ws| > 1 {
      assert ([[c] + ws[0]] + ws[1..])[1..] == ws[1..];
    }
  }

  /** Splitting on spaces and joining with spaces gives back the string. */
  lemma {:induction false} JoinSplit(s: string)
    ensures Join(Split(s)) == s
  {
    if s != [] {
      JoinSplit(s[1..]);
      var rest := Split(s[1..]);
      if s[0] == ' ' {
        JoinCons("", rest);
      } else {
        JoinPrependChar(s[0], rest);
      }
    }
  }

  /** The index of the last space of `s`. */
  function LastSpace(s: string): (k: nat)
    requires ' ' in s
    ensures k < |s| && s[k] == ' '
    ensures forall j :: k < j < |s| ==> s[j] != ' '
  {
    if ' ' in s[1..] then 1 + LastSpace(s[1..]) else 0
  }

  function DropLast<T>(s: seq<T>): seq<T>
    requires s != []
  {
    s[..|s| - 1]
  }

  /**
   * `s.split(' ').slice(0, -1).join(' ')` is what precedes the last space
   * of `s`, and is empty when `s` has no space.
   */
  lemma {:induction false} JoinDropLastSplit(s: string)
    ensures Join(DropLast(Split(s))) == if ' ' in s then s[..LastSpace(s)] else ""
  {
    if s != [] {
      var t := s[1..];
      JoinDropLastSplit(t);
      if s[0] == ' ' {
        JoinDropLastLeadingSpace(s);
      } else if ' ' in t {
        JoinDropLastLeadingChar(s);
      } else {
        assert ' ' !in s;
      }
    }
  }

  /** One step of `split(' ')`: a leading space starts a new piece, any other character joins the first. */
  lemma SplitCons(s: string)
    requires s != []
    ensures s[0] == ' ' ==> Split(s) == [""] + Split(s[1..])
    ensures s[0] != ' ' ==> Split(s) == [[s[0]] + Split(s[1..])[0]] + Split(s[1..])[1..]
  {
  }

  /** The last space of `s` is one past the last space of `s[1..]`. */
  lemma LastSpaceCons(s: string)
    requires s != [] && ' ' in s[1..]
    ensures ' ' in s && LastSpace(s) == 1 + LastSpace(s[1..])
    ensures s[..LastSpace(s)] == [s[0]] + s[1..][..LastSpace(s[1..])]
  {
    assert ' ' in s by {
      var k := LastSpace(s[1..]);
      assert s[k + 1] == ' ';
    }
  }

  lemma DropLastCons<T>(x: T, ys: seq<T>)
    requires ys != []
    ensures DropLast([x] + ys) == [x] + DropLast(ys)
  {
  }

  lemma DropLastParts<T>(ys: seq<T>)
    requires |ys| >= 2
    ensures DropLast(ys)[0] == ys[0] && DropLast(ys)[1..] == DropLast(ys[1..])
  {
  }

  lemma JoinDropLastLeadingSpace(s: string)
    requires s != [] && s[0] == ' '
    requires Join(DropLast(Split(s[1..]))) == if ' ' in s[1..] then s[1..][..LastSpace(s[1..])] else ""
    ensures Join(DropLast(Split(s))) == s[..LastSpace(s)]
  {
    var t := s[1..];
    var rest := Split(t);
    SplitCons(s);
    DropLastCons("", rest);
    if ' ' in t {
      assert DropLast(rest) != [];
      JoinCons("", DropLast(rest));
      LastSpaceCons(s);
    } else {
      assert DropLast(rest) == [];
      assert LastSpace(s) == 0;
    }
  }

  lemma JoinDropLastLeadingChar(s: string)
    requires s != [] && s[0] != ' ' && ' ' in s[1..]
    requires Join(DropLast(Split(s[1..]))) == s[1..][..LastSpace(s[1..])]
    ensures Join(DropLast(Split(s))) == s[..LastSpace(s)]
  {
    var t := s[1..];
    var rest := Split(t);
    SplitCons(s);
    assert |rest| >= 2;
    DropLastCons([s[0]] + rest[0], rest[1..]);
    DropLastParts(rest);
    var ws := DropLast(rest);
    JoinPrependChar(s[0], ws);
    LastSpaceCons(s);
  }

  /** Splitting at a space splits the pieces: `(a + ' ' + b).split(' ')`. */
  lemma {:induction false} SplitAtSpace(a: string, b: string)
    ensures Split(a + " " + b) == Split(a) + Split(b)
  {
    var s := a + " " + b;
    SplitCons(s);
    if a == [] {
      assert s[1..] == b;
    } else {
      assert s[0] == a[0] && s[1..] == a[1..] + " " + b;
      SplitAtSpace(a[1..], b);
      SplitCons(a);
      var x, y := Split(a[1..]), Split(b);
      if a[0] == ' ' {
        AppendAssoc([""], x, y);
      } else {
        assert (x + y)[0] == x[0] && (x + y)[1..] == x[1..] + y;
        AppendAssoc([[a[0]] + x[0]], x[1..], y);
      }
    }
  }

  // ------------------------------------------------ decimal numbers

  function DigitChar(d: nat): (c: char)
    requires d < 10
    ensures IsDigit(c)
  {
    (48 + d) as char
  }

  /** A whole number as a template literal renders it: decimal, no leading zeros. */
  function NatToString(n: nat): (r: string)
    ensures |r| >= 1
    ensures n < 10 <==> |r| == 1
    ensures forall i :: 0 <= i < |r| ==> IsDigit(r[i])
    ensures |r| > 1 ==> r[0] != '0'
  {
    if n < 10 then [DigitChar(n)] else NatToString(n / 10) + [DigitChar(n % 10)]
  }

  /** A whole number (possibly negative) as JavaScript renders it. */
  function IntToString(n: int): (r: string)
    ensures |r| >= 1
  {
    if n < 0 then "-" + NatToString(-n) else NatToString(n)
  }

  /** Different numbers render differently. */
  lemma {:induction false} NatToStringInjective(m: nat, n: nat)
    requires NatToString(m) == NatToString(n)
    ensures m == n
  {
    if m >= 10 {
      var a, b := NatToString(m / 10), NatToString(n / 10);
      assert NatToString(m)[..|a|] == a;
      assert NatToString(n)[..|b|] == b;
      assert NatToString(m)[|a|] == DigitChar(m % 10);
      NatToStringInjective(m / 10, n / 10);
    }
  }

  /** A fixed prefix followed by a number identifies the number. */
  lemma PrefixedNumberInjective(prefix: string, m: nat, n: nat)
    requires prefix + NatToString(m) == prefix + NatToString(n)
    ensures m == n
  {
    assert (prefix + NatToString(m))[|prefix|..] == NatToString(m);
    assert (prefix + NatToString(n))[|prefix|..] == NatToString(n);
    NatToStringInjective(m, n);
  }

  // ------------------------------------------------ find and filter

  /** `Array.prototype.findIndex`: the first index whose element satisfies `p`. */
  function FindFirst<T>(s: seq<T>, p: T -> bool): (r: Option<nat>)
    ensures r.Some? ==> r.value < |s| && p(s[r.value])
    ensures r.Some? ==> forall j :: 0 <= j < r.value ==> !p(s[j])
    ensures r.None? <==> forall j :: 0 <= j < |s| ==> !p(s[j])
  {
    if s == [] then None
    else if p(s[0]) then Some(0)
    else match FindFirst(s[1..], p)
      case None => None
      case Some(k) => Some(k + 1)
  }

  /** `Array.prototype.filter`: the elements satisfying `p`, in order. */
  function Filter<T>(s: seq<T>, p: T -> bool): (r: seq<T>)
    ensures |r| <= |s|
  {
    if s == [] then []
    else
      var rest := Filter(s[1..], p);
      if p(s[0]) then [s[0]] + rest else rest
  }

  /** Every element the filter keeps satisfies `p`. */
  lemma {:induction false} FilterSatisfies<T>(s: seq<T>, p: T -> bool)
    ensures forall i :: 0 <= i < |Filter(s, p)| ==> p(Filter(s, p)[i])
  {
    if s != [] {
      FilterSatisfies(s[1..], p);
      var rest := Filter(s[1..], p);
      if p(s[0]) {
        assert forall i :: 1 <= i < |[s[0]] + rest| ==> ([s[0]] + rest)[i] == rest[i - 1];
      }
    }
  }

  /** A property every element has is kept by the elements the filter keeps. */
  lemma {:induction false} FilterKeeps<T>(s: seq<T>, p: T -> bool, q: T -> bool)
    requires forall i :: 0 <= i < |s| ==> q(s[i])
    ensures forall i :: 0 <= i < |Filter(s, p)| ==> q(Filter(s, p)[i])
  {
    if s != [] {
      FilterKeeps(s[1..], p, q);
      var rest := Filter(s[1..], p);
      if p(s[0]) {
        assert forall i :: 1 <= i < |[s[0]] + rest| ==> ([s[0]] + rest)[i] == rest[i - 1];
      }
    }
  }

  /** The filtered sequence holds exactly the elements satisfying `p`. */
  lemma {:induction false} FilterMembers<T>(s: seq<T>, p: T -> bool)
    ensures forall x :: x in Filter(s, p) <==> x in s && p(x)
  {
    if s != [] {
      FilterMembers(s[1..], p);
      assert s == [s[0]] + s[1..];
    }
  }

  /** Filtering distributes over concatenation. */
  lemma {:induction false} FilterConcat<T>(a: seq<T>, b: seq<T>, p: T -> bool)
    ensures Filter(a + b, p) == Filter(a, p) + Filter(b, p)
  {
    if a == [] {
      assert a + b == b;
    } else {
      assert (a + b)[0] == a[0] && (a + b)[1..] == a[1..] + b;
      FilterConcat(a[1..], b, p);
    }
  }

  /** A filter that keeps nothing gives the empty sequence. */
  lemma {:induction false} FilterNone<T>(s: seq<T>, p: T -> bool)
    requires forall i :: 0 <= i < |s| ==> !p(s[i])
    ensures Filter(s, p) == []
  {
    if s != [] {
      FilterNone(s[1..], p);
    }
  }

  /** A filter that keeps everything gives the sequence back. */
  lemma {:induction false} FilterAll<T>(s: seq<T>, p: T -> bool)
    requires forall i :: 0 <= i < |s| ==> p(s[i])
    ensures Filter(s, p) == s
  {
    if s != [] {
      FilterAll(s[1..], p);
    }
  }

  /** Appending an element does not change an earlier match of `find`. */
  lemma FindFirstSnoc<T>(s: seq<T>, x: T, p: T -> bool)
    ensures FindFirst(s + [x], p) ==
      if FindFirst(s, p).Some? then FindFirst(s, p)
      else if p(x) then Some(|s|) else None
  {
    var r := FindFirst(s + [x], p);
    assert forall j :: 0 <= j < |s| ==> (s + [x])[j] == s[j];
    if FindFirst(s, p).Some? {
      var k := FindFirst(s, p).value;
      assert (s + [x])[k] == s[k];
    } else if p(x) {
      assert (s + [x])[|s|] == x;
    }
  }

  /** Filtering an extended sequence extends the filtered sequence: order is kept. */
  lemma {:induction false} FilterSnoc<T>(s: seq<T>, x: T, p: T -> bool)
    ensures Filter(s + [x], p) == Filter(s, p) + (if p(x) then [x] else [])
  {
    if s != [] {
      assert (s + [x])[1..] == s[1..] + [x];
      FilterSnoc(s[1..], x, p);
    }
  }
}
