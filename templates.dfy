/**
 * Message templates seen as literal text interleaved with named
 * placeholders. The OTP message uses `{name}` placeholders and personalised
 * bulk messages use `{{name}}`; both are filled in with PHP's `str_replace`.
 * The lemmas here say when a `str_replace` of one placeholder is exactly
 * "fill that slot", which is what the OTP message builder and the
 * personaliser promise.
 */
module Templates {
  import opened Strings

  datatype Piece = Lit(text: string) | Slot(name: string)

  /** The placeholder brackets: all `{` before the name, all `}` after it. */
  datatype Delims = Delims(open: string, close: string)

  predicate ValidDelims(d: Delims)
  {
    |d.open| >= 1 && |d.close| >= 1
    && (forall i :: 0 <= i < |d.open| ==> d.open[i] == '{')
    && (forall i :: 0 <= i < |d.close| ==> d.close[i] == '}')
  }

  const Single := Delims("{", "}")
  const Double := Delims("{{", "}}")

  predicate BraceFree(s: string)
  {
    '{' !in s && '}' !in s
  }

  predicate PieceBraceFree(p: Piece)
  {
    match p
    case Lit(t) => BraceFree(t)
    case Slot(n) => BraceFree(n)
  }

  /** Literal text without braces, and placeholder names without braces. */
  predicate WellFormed(ps: seq<Piece>)
  {
    forall i :: 0 <= i < |ps| ==> PieceBraceFree(ps[i])
  }

  function Placeholder(d: Delims, name: string): string
  {
    d.open + name + d.close
  }

  function ShowPiece(d: Delims, p: Piece): string
  {
    match p
    case Lit(t) => t
    case Slot(n) => Placeholder(d, n)
  }

  /** The template text. */
  function Show(d: Delims, ps: seq<Piece>): string
  {
    if ps == [] then "" else ShowPiece(d, ps[0]) + Show(d, ps[1..])
  }

  /** Every `name` slot replaced by the literal `value`. */
  function Fill(ps: seq<Piece>, name: string, value: string): (r: seq<Piece>)
    ensures |r| == |ps|
    ensures forall i :: 0 <= i < |ps| ==> r[i] == (if ps[i] == Slot(name) then Lit(value) else ps[i])
  {
    if ps == [] then [] else [if ps[0] == Slot(name) then Lit(value) else ps[0]] + Fill(ps[1..], name, value)
  }

  /** The names of the slots, in order of appearance. */
  function SlotNames(ps: seq<Piece>): seq<string>
  {
    if ps == [] then []
    else (match ps[0] case Slot(n) => [n] case Lit(_) => []) + SlotNames(ps[1..])
  }

  /** All text once every slot is filled. */
  predicate AllLiteral(ps: seq<Piece>)
  {
    forall i :: 0 <= i < |ps| ==> ps[i].Lit?
  }

  lemma Mismatch(s: string, pat: string, i: nat, j: nat)
    requires j < |pat|
    requires i + j < |s| ==> s[i + j] != pat[j]
    ensures !OccursAt(s, pat, i)
  {
    if i + |pat| <= |s| {
      assert s[i..i + |pat|][j] == s[i + j];
    }
  }

  lemma ReplaceShort(s: string, pat: string, rep: string)
    requires 0 < |pat| && |s| < |pat|
    ensures ReplaceAll(s, pat, rep) == s
  {
  }

  lemma NoMatchStep(s: string, pat: string, rep: string)
    requires |pat| > 0 && |s| > 0 && !OccursAt(s, pat, 0)
    ensures ReplaceAll(s, pat, rep) == [s[0]] + ReplaceAll(s[1..], pat, rep)
  {
    if |s| < |pat| {
      ReplaceShort(s[1..], pat, rep);
      assert s == [s[0]] + s[1..];
    }
  }

  lemma ShiftOccurs(s: string, pat: string, i: nat)
    requires |s| > 0
    ensures OccursAt(s[1..], pat, i) <==> OccursAt(s, pat, i + 1)
  {
    if i + 1 + |pat| <= |s| {
      assert s[1..][i..i + |pat|] == s[i + 1..i + 1 + |pat|];
    }
  }

  /** A prefix inside which the pattern never starts is copied through unchanged. */
  lemma {:induction false} NoMatchPrefix(u: string, w: string, pat: string, rep: string)
    requires |pat| > 0
    requires forall i: nat :: i < |u| ==> !OccursAt(u + w, pat, i)
    ensures ReplaceAll(u + w, pat, rep) == u + ReplaceAll(w, pat, rep)
  {
    if |u| > 0 {
      var s := u + w;
      assert !OccursAt(s, pat, 0);
      NoMatchStep(s, pat, rep);
      assert s[1..] == u[1..] + w;
      forall i: nat | i < |u[1..]| ensures !OccursAt(u[1..] + w, pat, i) {
        assert !OccursAt(s, pat, i + 1);
        ShiftOccurs(s, pat, i);
      }
      NoMatchPrefix(u[1..], w, pat, rep);
      assert u == [u[0]] + u[1..];
    } else {
      assert u + w == w;
    }
  }

  /** A `value` placeholder never starts inside the text of a piece that is not that slot. */
  lemma NoMatchInPiece(d: Delims, p: Piece, w: string, name: string)
    requires ValidDelims(d) && PieceBraceFree(p) && BraceFree(name) && p != Slot(name)
    ensures forall i: nat :: i < |ShowPiece(d, p)| ==> !OccursAt(ShowPiece(d, p) + w, Placeholder(d, name), i)
  {
    var u := ShowPiece(d, p);
    var s := u + w;
    var pat := Placeholder(d, name);
    var o := |d.open|;
    assert pat[0] == '{';
    forall i: nat | i < |u| ensures !OccursAt(s, pat, i) {
      match p
      case Lit(t) =>
        assert s[i] == t[i] && t[i] in t;
        Mismatch(s, pat, i, 0);
      case Slot(n) =>
        assert u == d.open + n + d.close;
        if i >= o {
          assert s[i] == (if i < o + |n| then n[i - o] else d.close[i - o - |n|]);
          assert s[i] != '{' by {
            if i < o + |n| { assert n[i - o] in n; }
          }
          Mismatch(s, pat, i, 0);
        } else if i > 0 {
          assert pat[o - i] == '{';
          assert s[o] == (if |n| > 0 then n[0] else d.close[0]);
          assert s[o] != '{' by {
            if |n| > 0 { assert n[0] in n; }
          }
          Mismatch(s, pat, i, o - i);
        } else if |n| < |name| {
          assert s[o + |n|] == '}';
          assert pat[o + |n|] == name[|n|] && name[|n|] in name;
          Mismatch(s, pat, 0, o + |n|);
        } else if |n| > |name| {
          assert pat[o + |name|] == '}';
          assert s[o + |name|] == n[|name|] && n[|name|] in n;
          Mismatch(s, pat, 0, o + |name|);
        } else {
          var j :| 0 <= j < |n| && n[j] != name[j];
          assert s[o + j] == n[j] && pat[o + j] == name[j];
          Mismatch(s, pat, 0, o + j);
        }
    }
  }

  /**
   * `str_replace` of one placeholder fills exactly that slot, provided the
   * literal text, the names and the value contain no braces.
   */
  lemma {:induction false} ReplaceFills(d: Delims, ps: seq<Piece>, name: string, value: string)
    requires ValidDelims(d) && WellFormed(ps) && BraceFree(name) && BraceFree(value)
    ensures ReplaceAll(Show(d, ps), Placeholder(d, name), value) == Show(d, Fill(ps, name, value))
    ensures WellFormed(Fill(ps, name, value))
  {
    var pat := Placeholder(d, name);
    if ps != [] {
      ReplaceFills(d, ps[1..], name, value);
      var rest := Show(d, ps[1..]);
      assert Fill(ps, name, value)[1..] == Fill(ps[1..], name, value);
      if ps[0] == Slot(name) {
        ReplaceAtHead(rest, pat, value);
      } else {
        NoMatchInPiece(d, ps[0], rest, name);
        NoMatchPrefix(ShowPiece(d, ps[0]), rest, pat, value);
      }
    } else {
      assert |pat| > 0;
    }
  }

  /** Replacing a placeholder that has no slot changes nothing. */
  lemma FillAbsent(ps: seq<Piece>, name: string, value: string)
    requires Slot(name) !in ps
    ensures Fill(ps, name, value) == ps
  {
  }

  /** The text of an all-literal template is the concatenation of its pieces. */
  lemma {:induction false} ShowAppend(d: Delims, ps: seq<Piece>, qs: seq<Piece>)
    ensures Show(d, ps + qs) == Show(d, ps) + Show(d, qs)
  {
    if ps != [] {
      assert (ps + qs)[1..] == ps[1..] + qs;
      ShowAppend(d, ps[1..], qs);
    } else {
      assert ps + qs == qs;
    }
  }
}
