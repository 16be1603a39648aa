/**
 * `MessagePersonalizer`: `personalize` replaces `{{key}}` by its value for
 * each variable in turn, and `extractVariables` lists the `{{name}}`
 * placeholders of a template (the regular expression `\{\{(\w+)\}\}`).
 */
module Personalizer {
  import opened Wrappers
  import opened Strings
  import opened Templates

  /** The variables array, as (key, value) pairs in PHP's iteration order. */
  type Variables = seq<(string, string)>

  /** `personalize` as a fold: one `str_replace` of `{{key}}` per pair, in order. */
  function Personalized(template: string, vars: Variables): (r: string)
    ensures vars == [] ==> r == template
    decreases |vars|
  {
    if vars == [] then template
    else Personalized(ReplaceAll(template, Placeholder(Double, vars[0].0), vars[0].1), vars[1..])
  }

  /** The loop of `personalize`, reassigning the message once per variable. */
  method Personalize(template: string, vars: Variables) returns (message: string)
    ensures message == Personalized(template, vars)
  {
    message := template;
    var i := 0;
    while i < |vars|
      invariant 0 <= i <= |vars|
      invariant Personalized(message, vars[i..]) == Personalized(template, vars)
    {
      var placeholder := Placeholder(Double, vars[i].0);
      assert vars[i..][1..] == vars[i + 1..];
      message := ReplaceAll(message, placeholder, vars[i].1);
      i := i + 1;
    }
    assert vars[i..] == [];
  }

  /** The value of the first pair whose key is `k`. */
  function Lookup(vars: Variables, k: string): (r: Option<string>)
    ensures r.Some? <==> exists i :: 0 <= i < |vars| && vars[i].0 == k
    ensures r.Some? ==> exists i :: 0 <= i < |vars| && vars[i] == (k, r.value)
  {
    if vars == [] then None
    else if vars[0].0 == k then Some(vars[0].1)
    else
      var r := Lookup(vars[1..], k);
      assert forall i :: 1 <= i < |vars| ==> vars[i] == vars[1..][i - 1];
      r
  }

  /** The slots filled one variable after the other. */
  function FillAll(ps: seq<Piece>, vars: Variables): (r: seq<Piece>)
    ensures |r| == |ps|
    decreases |vars|
  {
    if vars == [] then ps else FillAll(Fill(ps, vars[0].0, vars[0].1), vars[1..])
  }

  /** Keys and values without braces. */
  predicate PlainVariables(vars: Variables)
  {
    forall i :: 0 <= i < |vars| ==> BraceFree(vars[i].0) && BraceFree(vars[i].1)
  }

  /**
   * On a template whose text and names have no braces, with plain variables,
   * `personalize` fills the `{{key}}` slots and nothing else.
   */
  lemma {:induction false} PersonalizeFills(ps: seq<Piece>, vars: Variables)
    requires WellFormed(ps) && PlainVariables(vars)
    ensures Personalized(Show(Double, ps), vars) == Show(Double, FillAll(ps, vars))
    ensures WellFormed(FillAll(ps, vars))
    decreases |vars|
  {
    if vars != [] {
      assert ValidDelims(Double);
      ReplaceFills(Double, ps, vars[0].0, vars[0].1);
      PersonalizeFills(Fill(ps, vars[0].0, vars[0].1), vars[1..]);
    }
  }

  /**
   * After all variables, a slot whose key was supplied holds the first value
   * given for it, a slot whose key was not supplied is still a placeholder,
   * and literal text is unchanged.
   */
  lemma {:induction false} FillAllPieces(ps: seq<Piece>, vars: Variables, i: nat)
    requires i < |ps|
    ensures FillAll(ps, vars)[i]
            == (if ps[i].Slot? && Lookup(vars, ps[i].name).Some? then Lit(Lookup(vars, ps[i].name).value) else ps[i])
    decreases |vars|
  {
    if vars != [] {
      FillAllPieces(Fill(ps, vars[0].0, vars[0].1), vars[1..], i);
      if ps[i].Slot? && ps[i].name != vars[0].0 {
        assert Lookup(vars, ps[i].name) == Lookup(vars[1..], ps[i].name);
      }
    }
  }

  /** A supplied key leaves no slot behind; an absent key leaves its slots untouched. */
  lemma SuppliedKeysFilled(ps: seq<Piece>, vars: Variables, k: string)
    ensures Lookup(vars, k).Some? ==> Slot(k) !in FillAll(ps, vars)
    ensures Lookup(vars, k).None? ==> forall i :: 0 <= i < |ps| && ps[i] == Slot(k) ==> FillAll(ps, vars)[i] == Slot(k)
  {
    forall i | 0 <= i < |ps|
      ensures FillAll(ps, vars)[i] == (if ps[i].Slot? && Lookup(vars, ps[i].name).Some? then Lit(Lookup(vars, ps[i].name).value) else ps[i])
    {
      FillAllPieces(ps, vars, i);
    }
  }

  /**
   * A value containing braces can rebuild a placeholder: "{{{{k}}k}}" with
   * k set to the empty string personalises to "{{k}}".
   */
  lemma PlaceholderCanSurvive()
    ensures Personalized("{{{{k}}k}}", [("k", "")]) == "{{k}}"
  {
    var pat := Placeholder(Double, "k");
    assert pat == "{{k}}" by {
      assert forall i | 0 <= i < 5 :: pat[i] == "{{k}}"[i];
    }
    var t := "{{{{k}}k}}";
    assert Personalized(t, [("k", "")]) == ReplaceAll(t, pat, "");
    assert t[..5] != pat by { assert t[2] != pat[2]; }
    assert t[1..][..5] != pat by { assert t[1..][2] != pat[2]; }
    assert t[2..][..5] == pat;
    assert ReplaceAll(t[7..], pat, "") == "k}}";
    assert ReplaceAll(t[2..], pat, "") == "k}}" by {
      assert t[2..][5..] == t[7..];
    }
    assert ReplaceAll(t[1..], pat, "") == "{k}}" by {
      assert t[1..][1..] == t[2..];
    }
    assert ReplaceAll(t, pat, "") == "{{k}}" by {
      assert t[1..] == t[1..];
    }
  }

  // ------------------------------------------------------------ extractVariables

  /** PCRE `\w` without the `u` flag: ASCII letters, digits and underscore. */
  predicate IsWordChar(c: char)
  {
    'a' <= c <= 'z' || 'A' <= c <= 'Z' || '0' <= c <= '9' || c == '_'
  }

  predicate IsWord(s: string)
  {
    |s| > 0 && forall i :: 0 <= i < |s| ==> IsWordChar(s[i])
  }

  /** The longest prefix of word characters (greedy `\w+`, which never backtracks usefully before `}`). */
  function WordRun(s: string): (r: string)
    ensures |r| <= |s| && r == s[..|r|]
    ensures forall i :: 0 <= i < |r| ==> IsWordChar(r[i])
    ensures |r| < |s| ==> !IsWordChar(s[|r|])
  {
    if s != [] && IsWordChar(s[0]) then [s[0]] + WordRun(s[1..]) else []
  }

  /**
   * `preg_match_all('/\{\{(\w+)\}\}/')`, group 1: a match is tried at each
   * position left to right, and the scan resumes after a match.
   */
  function ExtractVariables(s: string): (r: seq<string>)
    ensures forall i :: 0 <= i < |r| ==> IsWord(r[i])
    decreases |s|
  {
    if |s| < 2 then []
    else if s[0] == '{' && s[1] == '{' && |WordRun(s[2..])| > 0 && 4 + |WordRun(s[2..])| <= |s|
            && s[2 + |WordRun(s[2..])|] == '}' && s[3 + |WordRun(s[2..])|] == '}'
    then [WordRun(s[2..])] + ExtractVariables(s[4 + |WordRun(s[2..])|..])
    else ExtractVariables(s[1..])
  }

  lemma WordRunStops(n: string, t: string)
    requires IsWord(n) && t != [] && !IsWordChar(t[0])
    ensures WordRun(n + t) == n
    decreases |n|
  {
    if |n| > 1 {
      assert (n + t)[1..] == n[1..] + t;
      WordRunStops(n[1..], t);
      assert n == [n[0]] + n[1..];
    } else {
      assert (n + t)[1..] == t;
      assert n == [n[0]];
    }
  }

  /** Text without braces contributes no name. */
  lemma {:induction false} ExtractSkipsText(u: string, w: string)
    requires BraceFree(u)
    ensures ExtractVariables(u + w) == ExtractVariables(w)
    decreases |u|
  {
    if u != [] {
      var s := u + w;
      assert s[0] == u[0] && u[0] in u;
      assert s[1..] == u[1..] + w;
      ExtractSkipsText(u[1..], w);
      if |s| < 2 {
        assert |w| < 2;
      }
    } else {
      assert u + w == w;
    }
  }

  /** A `{{name}}` placeholder with a word name is found as `name`. */
  lemma ExtractAtSlot(n: string, w: string)
    requires IsWord(n)
    ensures ExtractVariables(Placeholder(Double, n) + w) == [n] + ExtractVariables(w)
  {
    var s := Placeholder(Double, n) + w;
    assert s == "{{" + (n + ("}}" + w));
    assert s[2..] == n + ("}}" + w);
    WordRunStops(n, "}}" + w);
    assert s[2 + |n|] == '}' && s[3 + |n|] == '}';
    assert s[4 + |n|..] == w;
  }

  /** Slots named by words, so the regular expression can see them. */
  predicate WordSlots(ps: seq<Piece>)
  {
    forall i :: 0 <= i < |ps| && ps[i].Slot? ==> IsWord(ps[i].name)
  }

  /** On a well-formed template, `extractVariables` lists the slot names in order, duplicates included. */
  lemma {:induction false} ExtractShow(ps: seq<Piece>)
    requires WellFormed(ps) && WordSlots(ps)
    ensures ExtractVariables(Show(Double, ps)) == SlotNames(ps)
    decreases |ps|
  {
    if ps != [] {
      var rest := Show(Double, ps[1..]);
      ExtractShow(ps[1..]);
      match ps[0]
      case Lit(t) =>
        assert PieceBraceFree(ps[0]);
        ExtractSkipsText(t, rest);
      case Slot(n) =>
        ExtractAtSlot(n, rest);
    }
  }
}
