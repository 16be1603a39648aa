/**
 * The PHP string primitives the core relies on: `trim`, `explode`,
 * `array_filter` on strings, `str_replace`, `strtolower`, `ucfirst`,
 * `empty()` and integer-to-string conversion.
 */
module Strings {
  import opened Wrappers

  /** The characters PHP's `trim` removes by default: space, \t, \n, \r, \0 and \x0B. */
  predicate IsTrimChar(c: char)
  {
    c == ' ' || c == '\t' || c == '\n' || c == '\r' || c == '\0' || c == '\U{000B}'
  }

  /** PHP `empty()` on a string: the empty string and "0" are falsy. */
  predicate IsFalsy(s: string)
  {
    s == "" || s == "0"
  }

  /** PHP truthiness of an optional string: present, and neither "" nor "0". */
  predicate Truthy(s: Option<string>)
  {
    s.Some? && !IsFalsy(s.value)
  }

  /** The index of the first character at or after `i` that `trim` keeps (or `|s|`). */
  function TrimStart(s: string, i: nat): (n: nat)
    requires i <= |s|
    ensures i <= n <= |s|
    ensures forall j :: i <= j < n ==> IsTrimChar(s[j])
    ensures n == |s| || !IsTrimChar(s[n])
    decreases |s| - i
  {
    if i < |s| && IsTrimChar(s[i]) then TrimStart(s, i + 1) else i
  }

  /** The index just past the last character before `e` that `trim` keeps, but not below `lo`. */
  function TrimEnd(s: string, lo: nat, e: nat): (n: nat)
    requires lo <= e <= |s|
    ensures lo <= n <= e
    ensures forall j :: n <= j < e ==> IsTrimChar(s[j])
    ensures n == lo || !IsTrimChar(s[n - 1])
    decreases e
  {
    if e > lo && IsTrimChar(s[e - 1]) then TrimEnd(s, lo, e - 1) else e
  }

  /** PHP `trim($s)`: the longest infix with no trim character at either end. */
  function Trim(s: string): (r: string)
    ensures |r| <= |s|
    ensures r == [] || (!IsTrimChar(r[0]) && !IsTrimChar(r[|r| - 1]))
  {
    var i := TrimStart(s, 0);
    var e := TrimEnd(s, i, |s|);
    assert e > i ==> !IsTrimChar(s[e - 1]) && !IsTrimChar(s[i]);
    s[i..e]
  }

  /** What `trim` removes: trim characters only, from the two ends. */
  lemma TrimShape(s: string)
    ensures var r := Trim(s); var i := TrimStart(s, 0);
            && i + |r| <= |s| && r == s[i..i + |r|]
            && (forall j :: 0 <= j < i ==> IsTrimChar(s[j]))
            && (forall j :: i + |r| <= j < |s| ==> IsTrimChar(s[j]))
  {
  }

  lemma TrimOfTrimmed(s: string)
    requires s == [] || (!IsTrimChar(s[0]) && !IsTrimChar(s[|s| - 1]))
    ensures Trim(s) == s
  {
  }

  /** PHP `explode(sep, s)`: never empty, and no piece contains the separator. */
  function Split(s: string, sep: char): (r: seq<string>)
    ensures |r| >= 1
    ensures forall i :: 0 <= i < |r| ==> sep !in r[i]
  {
    if |s| == 0 then [""]
    else if s[0] == sep then [""] + Split(s[1..], sep)
    else
      var rest := Split(s[1..], sep);
      [[s[0]] + rest[0]] + rest[1..]
  }

  /** Joining the pieces of `explode` with the separator gives the string back. */
  lemma {:induction false} JoinSplit(s: string, sep: char)
    ensures Join(Split(s, sep), sep) == s
  {
    if |s| > 0 {
      JoinSplit(s[1..], sep);
      var rest := Split(s[1..], sep);
      if s[0] == sep {
        assert Join(Split(s, sep), sep) == "" + [sep] + Join(rest, sep);
      } else {
        JoinHead(s[0], rest, sep);
      }
      assert s == [s[0]] + s[1..];
    }
  }

  /** PHP `implode(sep, parts)` for a non-empty list. */
  function Join(parts: seq<string>, sep: char): string
    requires |parts| >= 1
  {
    if |parts| == 1 then parts[0] else parts[0] + [sep] + Join(parts[1..], sep)
  }

  lemma JoinHead(c: char, parts: seq<string>, sep: char)
    requires |parts| >= 1
    ensures Join([[c] + parts[0]] + parts[1..], sep) == [c] + Join(parts, sep)
  {
    var q := [[c] + parts[0]] + parts[1..];
    assert q[1..] == parts[1..];
  }

  /** Splitting a joined list of separator-free pieces gives the pieces back. */
  lemma {:induction false} SplitJoin(parts: seq<string>, sep: char)
    requires |parts| >= 1
    requires forall i :: 0 <= i < |parts| ==> sep !in parts[i]
    ensures Split(Join(parts, sep), sep) == parts
  {
    SplitPiece(parts[0], if |parts| == 1 then None else Some(Join(parts[1..], sep)), sep);
    if |parts| > 1 {
      SplitJoin(parts[1..], sep);
    }
  }

  lemma SplitPiece(p: string, tail: Option<string>, sep: char)
    requires sep !in p
    ensures tail.None? ==> Split(p, sep) == [p]
    ensures tail.Some? ==> Split(p + [sep] + tail.value, sep) == [p] + Split(tail.value, sep)
  {
    if tail.Some? {
      SplitBefore(p, tail.value, sep);
    } else {
      SplitNone(p, sep);
    }
  }

  /** A string without the separator is one piece. */
  lemma {:induction false} SplitNone(p: string, sep: char)
    requires sep !in p
    ensures Split(p, sep) == [p]
  {
    if |p| > 0 {
      SplitNone(p[1..], sep);
      assert p == [p[0]] + p[1..];
    }
  }

  /** A piece without the separator, then the separator, splits off as the first piece. */
  lemma {:induction false} SplitBefore(p: string, tail: string, sep: char)
    requires sep !in p
    ensures Split(p + [sep] + tail, sep) == [p] + Split(tail, sep)
  {
    var whole := p + [sep] + tail;
    if |p| > 0 {
      assert whole[0] == p[0] != sep;
      assert whole[1..] == p[1..] + [sep] + tail;
      SplitBefore(p[1..], tail, sep);
      var rest := Split(whole[1..], sep);
      assert rest[0] == p[1..] && rest[1..] == Split(tail, sep);
      assert [p[0]] + rest[0] == p;
    } else {
      assert whole[1..] == tail;
    }
  }

  /** `array_map('trim', ...)`. */
  function TrimAll(xs: seq<string>): (r: seq<string>)
    ensures |r| == |xs| && forall i :: 0 <= i < |xs| ==> r[i] == Trim(xs[i])
  {
    if xs == [] then [] else [Trim(xs[0])] + TrimAll(xs[1..])
  }

  /** `array_filter` with PHP truthiness: drops "" and "0", keeps the order of the rest. */
  function DropFalsy(xs: seq<string>): (r: seq<string>)
    ensures |r| <= |xs|
    ensures forall i :: 0 <= i < |r| ==> !IsFalsy(r[i]) && r[i] in xs
    ensures forall x :: x in xs && !IsFalsy(x) ==> x in r
  {
    if xs == [] then []
    else if IsFalsy(xs[0]) then DropFalsy(xs[1..])
    else [xs[0]] + DropFalsy(xs[1..])
  }

  /**
   * A comma-separated list as the settings forms and group fan-out read it:
   * `array_filter(array_map('trim', explode(',', s)))`.
   */
  function ParseList(s: string): (r: seq<string>)
    ensures forall i :: 0 <= i < |r| ==> !IsFalsy(r[i]) && Trim(r[i]) == r[i] && ',' !in r[i]
  {
    var trimmed := TrimAll(Split(s, ','));
    TrimmedPieces(Split(s, ','), ',');
    DropFalsy(trimmed)
  }

  lemma TrimmedPieces(pieces: seq<string>, sep: char)
    requires forall i :: 0 <= i < |pieces| ==> sep !in pieces[i]
    ensures forall x :: x in TrimAll(pieces) ==> Trim(x) == x && sep !in x
  {
    var trimmed := TrimAll(pieces);
    forall x | x in trimmed ensures Trim(x) == x && sep !in x {
      var i :| 0 <= i < |trimmed| && trimmed[i] == x;
      TrimOfTrimmed(x);
      TrimInfix(pieces[i], x);
    }
  }

  lemma TrimInfix(s: string, t: string)
    requires t == Trim(s)
    ensures forall c :: c in t ==> c in s
  {
    TrimShape(s);
    var i := TrimStart(s, 0);
    forall c | c in t ensures c in s {
      var k :| 0 <= k < |t| && t[k] == c;
      assert s[i + k] == c;
    }
  }

  /** A list with no blank or falsy entries survives being written comma-separated and parsed again. */
  lemma {:induction false} ParseListJoin(xs: seq<string>)
    requires |xs| >= 1
    requires forall i :: 0 <= i < |xs| ==> !IsFalsy(xs[i]) && ',' !in xs[i] && Trim(xs[i]) == xs[i]
    ensures ParseList(Join(xs, ',')) == xs
  {
    SplitJoin(xs, ',');
    TrimAllFixed(xs);
    DropFalsyKeeps(xs);
  }

  lemma {:induction false} TrimAllFixed(xs: seq<string>)
    requires forall i :: 0 <= i < |xs| ==> Trim(xs[i]) == xs[i]
    ensures TrimAll(xs) == xs
  {
    if xs != [] {
      TrimAllFixed(xs[1..]);
    }
  }

  lemma {:induction false} DropFalsyKeeps(xs: seq<string>)
    requires forall i :: 0 <= i < |xs| ==> !IsFalsy(xs[i])
    ensures DropFalsy(xs) == xs
  {
    if xs != [] {
      DropFalsyKeeps(xs[1..]);
    }
  }

  /** `array_filter` keeps a single entry exactly when it is truthy. */
  lemma DropFalsyOne(x: string)
    ensures DropFalsy([x]) == if IsFalsy(x) then [] else [x]
  {
    assert [x][1..] == [];
  }

  /** `array_filter` works entry by entry: filtering a concatenation filters each part, in order. */
  lemma {:induction false} DropFalsyAppend(xs: seq<string>, ys: seq<string>)
    ensures DropFalsy(xs + ys) == DropFalsy(xs) + DropFalsy(ys)
  {
    var zs := xs + ys;
    if xs != [] {
      assert zs[0] == xs[0] && zs[1..] == xs[1..] + ys;
      DropFalsyAppend(xs[1..], ys);
      var tail := DropFalsy(xs[1..]) + DropFalsy(ys);
      assert DropFalsy(zs[1..]) == tail;
      if !IsFalsy(xs[0]) {
        assert DropFalsy(zs) == [xs[0]] + tail;
        assert DropFalsy(xs) == [xs[0]] + DropFalsy(xs[1..]);
      }
    } else {
      assert zs == ys;
    }
  }

  /** `explode` of a string with a known first character. */
  lemma SplitCons(c: char, t: string, sep: char)
    ensures c == sep ==> Split([c] + t, sep) == [""] + Split(t, sep)
    ensures c != sep ==> Split([c] + t, sep) == [[c] + Split(t, sep)[0]] + Split(t, sep)[1..]
  {
    assert ([c] + t)[0] == c && ([c] + t)[1..] == t;
  }

  /** Concatenation is associative (stated on an element type the solver cannot look into). */
  lemma AppendAssoc<T>(x: seq<T>, y: seq<T>, z: seq<T>)
    ensures x + (y + z) == (x + y) + z
  {
  }

  /** `explode` on a separator joining two strings gives the pieces of the first, then those of the second. */
  lemma {:induction false} SplitAppend(a: string, b: string, sep: char)
    ensures Split(a + [sep] + b, sep) == Split(a, sep) + Split(b, sep)
  {
    if a == [] {
      assert a + [sep] + b == [sep] + b;
      SplitCons(sep, b, sep);
      assert Split(a, sep) == [""];
      assert Split(a + [sep] + b, sep) == [""] + Split(b, sep);
    } else {
      var t := a[1..] + [sep] + b;
      assert a + [sep] + b == [a[0]] + t;
      assert a == [a[0]] + a[1..];
      SplitAppend(a[1..], b, sep);
      SplitCons(a[0], t, sep);
      SplitCons(a[0], a[1..], sep);
      var left := Split(a[1..], sep);
      var right := Split(b, sep);
      assert Split(t, sep) == left + right;
      if a[0] != sep {
        assert (left + right)[0] == left[0];
        assert (left + right)[1..] == left[1..] + right;
        assert Split([a[0]] + t, sep) == [[a[0]] + left[0]] + (left[1..] + right);
        assert Split([a[0]] + a[1..], sep) == [[a[0]] + left[0]] + left[1..];
        AppendAssoc([[a[0]] + left[0]], left[1..], right);
      } else {
        assert Split([a[0]] + t, sep) == [""] + (left + right);
        assert Split([a[0]] + a[1..], sep) == [""] + left;
        AppendAssoc([""], left, right);
      }
    }
  }

  lemma TrimAllAppend(xs: seq<string>, ys: seq<string>)
    ensures TrimAll(xs + ys) == TrimAll(xs) + TrimAll(ys)
  {
  }

  /**
   * The list read from two comma-separated texts joined by a comma is the
   * list of the first followed by the list of the second: no truthy piece
   * is lost and the order is kept.
   */
  lemma ParseListComma(a: string, b: string)
    ensures ParseList(a + [','] + b) == ParseList(a) + ParseList(b)
  {
    SplitAppend(a, b, ',');
    TrimAllAppend(Split(a, ','), Split(b, ','));
    DropFalsyAppend(TrimAll(Split(a, ',')), TrimAll(Split(b, ',')));
  }

  /** A text without a comma gives its trimmed self when that is truthy, and nothing otherwise. */
  lemma ParseListPiece(p: string)
    requires ',' !in p
    ensures ParseList(p) == if IsFalsy(Trim(p)) then [] else [Trim(p)]
  {
    SplitNone(p, ',');
    assert TrimAll([p]) == [Trim(p)];
    DropFalsyOne(Trim(p));
  }

  predicate StartsWith(s: string, prefix: string)
  {
    |prefix| <= |s| && s[..|prefix|] == prefix
  }

  /** `pat` occurs in `s` starting at index `i`. */
  predicate OccursAt(s: string, pat: string, i: nat)
  {
    i + |pat| <= |s| && s[i..i + |pat|] == pat
  }

  /** SQL `LIKE '%pat%'` and PHP `str_contains`: `pat` is an infix of `s`. */
  predicate Contains(s: string, pat: string)
  {
    exists i: nat | i <= |s| :: OccursAt(s, pat, i)
  }

  /** The middle of a concatenation is contained in it. */
  lemma ContainsInfix(a: string, b: string, c: string)
    ensures Contains(a + b + c, b)
  {
    assert (a + b + c)[|a|..|a| + |b|] == b;
    assert OccursAt(a + b + c, b, |a|);
  }

  /**
   * PHP `str_replace(pat, rep, s)` for a non-empty `pat`: a left-to-right scan
   * that replaces each non-overlapping occurrence.
   */
  function ReplaceAll(s: string, pat: string, rep: string): string
    requires |pat| > 0
    decreases |s|
  {
    if |s| < |pat| then s
    else if s[..|pat|] == pat then rep + ReplaceAll(s[|pat|..], pat, rep)
    else [s[0]] + ReplaceAll(s[1..], pat, rep)
  }

  /** Where the pattern does not occur, `str_replace` changes nothing. */
  lemma {:induction false} ReplaceAbsent(s: string, pat: string, rep: string)
    requires |pat| > 0
    requires forall i: nat :: !OccursAt(s, pat, i)
    ensures ReplaceAll(s, pat, rep) == s
  {
    if |s| >= |pat| {
      assert !OccursAt(s, pat, 0);
      forall i: nat ensures !OccursAt(s[1..], pat, i) {
        assert !OccursAt(s, pat, i + 1);
        if i + |pat| <= |s| - 1 {
          assert s[i + 1..i + 1 + |pat|] == s[1..][i..i + |pat|];
        }
      }
      ReplaceAbsent(s[1..], pat, rep);
      assert s == [s[0]] + s[1..];
    }
  }

  /** Text without the pattern's first character is left unchanged by `str_replace`. */
  lemma {:induction false} ReplaceAllRemoves(s: string, pat: string, rep: string)
    requires |pat| > 0
    requires pat[0] !in s && pat[0] !in rep
    ensures ReplaceAll(s, pat, rep) == s
  {
    forall i: nat ensures !OccursAt(s, pat, i) {
      if i + |pat| <= |s| {
        assert s[i..i + |pat|][0] == s[i] && s[i] in s;
      }
    }
    ReplaceAbsent(s, pat, rep);
  }

  /** A prefix free of the pattern's first character is copied through unchanged. */
  lemma {:induction false} ReplaceSkipsPrefix(u: string, w: string, pat: string, rep: string)
    requires |pat| > 0 && pat[0] !in u
    ensures ReplaceAll(u + w, pat, rep) == u + ReplaceAll(w, pat, rep)
  {
    if |u| > 0 {
      var s := u + w;
      assert s[0] == u[0] && s[0] != pat[0];
      if |s| >= |pat| {
        assert s[..|pat|] != pat;
      }
      assert s[1..] == u[1..] + w;
      ReplaceSkipsPrefix(u[1..], w, pat, rep);
      assert u == [u[0]] + u[1..];
    } else {
      assert u + w == w;
    }
  }

  /** An occurrence at the head is replaced. */
  lemma ReplaceAtHead(w: string, pat: string, rep: string)
    requires |pat| > 0
    ensures ReplaceAll(pat + w, pat, rep) == rep + ReplaceAll(w, pat, rep)
  {
    assert (pat + w)[..|pat|] == pat;
    assert (pat + w)[|pat|..] == w;
  }

  /** The decimal digit characters. */
  predicate IsDigit(c: char)
  {
    '0' <= c <= '9'
  }

  function DigitChar(d: nat): (c: char)
    requires d < 10
    ensures IsDigit(c) && c as int - '0' as int == d
  {
    (d + '0' as int) as char
  }

  function Pow10(d: nat): (r: nat)
    ensures r >= 1
  {
    if d == 0 then 1 else 10 * Pow10(d - 1)
  }

  /** PHP's `(string)` of a non-negative integer: its decimal digits. */
  function NatToString(n: nat): (r: string)
    ensures |r| >= 1 && forall i :: 0 <= i < |r| ==> IsDigit(r[i])
    ensures r[0] == '0' <==> n == 0
  {
    if n < 10 then [DigitChar(n)] else NatToString(n / 10) + [DigitChar(n % 10)]
  }

  function DigitValue(c: char): nat
    requires IsDigit(c)
  {
    var d := c as int - '0' as int;
    assert d >= 0;
    d
  }

  /** The value a string of decimal digits denotes. */
  function DigitsValue(s: string): nat
    requires forall i :: 0 <= i < |s| ==> IsDigit(s[i])
  {
    if s == [] then 0 else 10 * DigitsValue(s[..|s| - 1]) + DigitValue(s[|s| - 1])
  }

  /** Reading the digits back gives the number: `(string)` is injective. */
  lemma {:induction false} NatToStringValue(n: nat)
    ensures DigitsValue(NatToString(n)) == n
  {
    if n >= 10 {
      NatToStringValue(n / 10);
      var s := NatToString(n);
      assert s[..|s| - 1] == NatToString(n / 10);
    }
  }

  lemma NatToStringInjective(m: nat, n: nat)
    ensures NatToString(m) == NatToString(n) <==> m == n
  {
    NatToStringValue(m);
    NatToStringValue(n);
  }

  /** A number has exactly `d` decimal digits iff it lies in [10^(d-1), 10^d - 1]. */
  lemma {:induction false} NatToStringLength(n: nat, d: nat)
    requires d >= 1
    ensures |NatToString(n)| == d <==> (if d == 1 then 0 else Pow10(d - 1)) <= n < Pow10(d)
  {
    if n >= 10 {
      if d == 1 {
        assert |NatToString(n)| >= 2 by { assert |NatToString(n)| == |NatToString(n / 10)| + 1; }
      } else {
        NatToStringLength(n / 10, d - 1);
        if d - 1 == 1 {
          assert n / 10 >= 1;
        }
      }
    } else if d > 1 {
      assert Pow10(d - 1) >= 10 by { Pow10Grows(d - 1); }
    }
  }

  lemma {:induction false} Pow10Grows(d: nat)
    requires d >= 1
    ensures Pow10(d) >= 10
  {
    if d > 1 {
      Pow10Grows(d - 1);
    }
  }

  /** PHP `strtolower`: ASCII upper-case letters become lower-case, everything else is kept. */
  function ToLower(s: string): (r: string)
    ensures |r| == |s|
    ensures forall i :: 0 <= i < |s| ==> r[i] == (if 'A' <= s[i] <= 'Z' then (s[i] as int + 32) as char else s[i])
  {
    if s == [] then [] else [if 'A' <= s[0] <= 'Z' then (s[0] as int + 32) as char else s[0]] + ToLower(s[1..])
  }

  /** PHP `ucfirst`: the first character upper-cased when it is an ASCII lower-case letter. */
  function UcFirst(s: string): (r: string)
    ensures |r| == |s| && (|s| > 0 ==> r[1..] == s[1..])
    ensures |s| > 0 && 'a' <= s[0] <= 'z' ==> r[0] as int == s[0] as int - 32
    ensures !(|s| > 0 && 'a' <= s[0] <= 'z') ==> r == s
  {
    if |s| > 0 && 'a' <= s[0] <= 'z' then [(s[0] as int - 32) as char] + s[1..] else s
  }
}
