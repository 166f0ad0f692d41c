/** The string utilities of the C++ indexer (cxxrag-index/lib/IndexAction.cxx):
    Replace, which replaces the first occurrence of a pattern, and Encode,
    which escapes backslash, double quote and newline so that a text can sit
    between the quotes of the JSON-like output.

    Encode's two std::regex_replace calls are modelled by their effect, the
    substitution of every occurrence of one character (Subst). */
module Escaping {
  import opened Common

  // ---------------------------------------------------------------------
  // Replace
  // ---------------------------------------------------------------------

  /** pat occurs in s at position k. */
  predicate OccursAt(s: string, pat: string, k: nat) {
    k + |pat| <= |s| && s[k..k + |pat|] == pat
  }

  /** std::string::find from position i: the first occurrence of pat at or
      after i. */
  function FindFrom(s: string, pat: string, i: nat): (r: Option<nat>)
    requires i <= |s|
    ensures r.Some? ==> i <= r.value && OccursAt(s, pat, r.value)
    ensures r.Some? ==> forall j :: i <= j < r.value ==> !OccursAt(s, pat, j)
    ensures r.None? ==> forall j :: i <= j <= |s| ==> !OccursAt(s, pat, j)
    decreases |s| - i
  {
    if OccursAt(s, pat, i) then Some(i)
    else if i == |s| then None
    else FindFrom(s, pat, i + 1)
  }

  /** std::string::find: the first occurrence of pat in s. */
  function Find(s: string, pat: string): (r: Option<nat>)
    ensures r.Some? ==> OccursAt(s, pat, r.value) && forall j :: 0 <= j < r.value ==> !OccursAt(s, pat, j)
    ensures r.None? <==> forall j :: 0 <= j <= |s| ==> !OccursAt(s, pat, j)
  {
    FindFrom(s, pat, 0)
  }

  /** Replace: when from occurs in s, its first occurrence is replaced by to
      and the result is true; otherwise s is left as it is and the result is
      false. The string is an in-out parameter: s is the value passed in,
      r the value left behind. */
  method Replace(s: string, from: string, to: string) returns (found: bool, r: string)
    ensures found <==> exists j :: 0 <= j <= |s| && OccursAt(s, from, j)
    ensures !found ==> r == s
    ensures found ==> exists k :: (0 <= k <= |s| && OccursAt(s, from, k)
      && (forall j :: 0 <= j < k ==> !OccursAt(s, from, j))
      && r == s[..k] + to + s[k + |from|..])
  {
    var start := Find(s, from);
    if start.None? {
      return false, s;
    }
    var k := start.value;
    r := s[..k] + to + s[k + |from|..];
    return true, r;
  }

  // ---------------------------------------------------------------------
  // The specification of Encode
  // ---------------------------------------------------------------------

  /** The escape of one character. */
  function EscapeChar(c: char): string {
    if c == '\\' then "\\\\"
    else if c == '"' then "\\\""
    else if c == '\n' then "\\n"
    else [c]
  }

  /** Every character mapped to its escape, all others kept in place. */
  function Escape(s: string): (r: string)
    ensures |r| >= |s|
  {
    if s == [] then [] else EscapeChar(s[0]) + Escape(s[1..])
  }

  /** The first character a text reads back as, and how many characters
      of the text it takes: \\, \" and \n are two, any character other than
      a backslash, a quote or a newline is one; None for anything else. */
  function Head(t: string): Option<(char, nat)>
    requires t != []
  {
    if t[0] == '\\' then
      if |t| >= 2 && t[1] == '\\' then Some(('\\', 2))
      else if |t| >= 2 && t[1] == '"' then Some(('"', 2))
      else if |t| >= 2 && t[1] == 'n' then Some(('\n', 2))
      else None
    else if t[0] == '"' || t[0] == '\n' then None
    else Some((t[0], 1))
  }

  /** The reverse reading: \\, \" and \n back to the character they stand
      for; None for a text with a raw quote or newline or a lone backslash. */
  function Unescape(t: string): Option<string>
    decreases |t|
  {
    if t == [] then Some([])
    else
      match Head(t)
      case None => None
      case Some((c, n)) =>
        if n > |t| || n == 0 then None
        else
          var rest := Unescape(t[n..]);
          if rest.None? then None else Some([c] + rest.value)
  }

  /** A character that needs no escape reads back as itself. */
  lemma UnescapePlain(c: char, t: string)
    requires c != '\\' && c != '"' && c != '\n'
    ensures Unescape([c] + t) == if Unescape(t).None? then None else Some([c] + Unescape(t).value)
  {
    assert ([c] + t)[1..] == t;
  }

  /** An escape pair reads back as the character it stands for. */
  lemma UnescapePair(e: char, t: string)
    requires e == '\\' || e == '"' || e == 'n'
    ensures var c := if e == 'n' then '\n' else e;
      Unescape(['\\', e] + t) == if Unescape(t).None? then None else Some([c] + Unescape(t).value)
  {
    assert (['\\', e] + t)[2..] == t;
  }

  /** A raw quote cannot be read back. */
  lemma UnescapeRawQuote(t: string)
    ensures Unescape(['"'] + t) == None
  {
  }

  /** A prefix of characters that need no escape reads back as itself. */
  lemma {:induction false} UnescapeKeepsPrefix(p: string, t: string)
    requires forall i :: 0 <= i < |p| ==> p[i] != '\\' && p[i] != '"' && p[i] != '\n'
    ensures Unescape(t).None? ==> Unescape(p + t).None?
    ensures Unescape(t).Some? ==> Unescape(p + t) == Some(p + Unescape(t).value)
  {
    if p != [] {
      assert p + t == [p[0]] + (p[1..] + t);
      UnescapeKeepsPrefix(p[1..], t);
      UnescapePlain(p[0], p[1..] + t);
      if Unescape(t).Some? {
        assert p + Unescape(t).value == [p[0]] + (p[1..] + Unescape(t).value);
      }
    } else {
      assert p + t == t;
      if Unescape(t).Some? {
        assert p + Unescape(t).value == Unescape(t).value;
      }
    }
  }

  lemma EscapeAppend(a: string, b: string)
    ensures Escape(a + b) == Escape(a) + Escape(b)
  {
    if a != [] {
      assert (a + b)[0] == a[0] && (a + b)[1..] == a[1..] + b;
      EscapeAppend(a[1..], b);
    } else {
      assert a + b == b;
    }
  }

  /** Decoding undoes escaping. */
  lemma {:induction false} UnescapeEscape(s: string)
    ensures Unescape(Escape(s)) == Some(s)
  {
    if s != [] {
      UnescapeEscape(s[1..]);
      var e, rest := EscapeChar(s[0]), Escape(s[1..]);
      var t := e + rest;
      if |e| == 2 {
        assert t[2..] == rest;
      } else {
        assert t[1..] == rest;
      }
      assert s == [s[0]] + s[1..];
    }
  }

  /** Encode loses nothing: different inputs give different outputs. */
  lemma EscapeInjective(a: string, b: string)
    ensures Escape(a) == Escape(b) <==> a == b
  {
    if Escape(a) == Escape(b) {
      UnescapeEscape(a);
      UnescapeEscape(b);
    }
  }

  /** The escaped text has no raw newline (and no unescaped quote). */
  lemma {:induction false} EscapeHasNoNewline(s: string)
    ensures '\n' !in Escape(s)
  {
    if s != [] {
      EscapeHasNoNewline(s[1..]);
      assert '\n' !in EscapeChar(s[0]);
    }
  }

  lemma CountCons(s: string, x: char)
    requires s != []
    ensures Count(s, x) == (if s[0] == x then 1 else 0) + Count(s[1..], x)
  {
    assert s == [s[0]] + s[1..];
    CountAppend([s[0]], s[1..], x);
    assert [s[0]][..0] == [];
  }

  /** One extra character per backslash, quote and newline. */
  lemma {:induction false} EscapeLength(s: string)
    ensures |Escape(s)| == |s| + Count(s, '\\') + Count(s, '"') + Count(s, '\n')
  {
    if s != [] {
      EscapeLength(s[1..]);
      CountCons(s, '\\');
      CountCons(s, '"');
      CountCons(s, '\n');
    }
  }

  // ---------------------------------------------------------------------
  // The three substitutions of Encode
  // ---------------------------------------------------------------------

  /** Every occurrence of c replaced by rep: the effect of regex_replace
      on a one-character pattern, and of the Replace loop on "\n". */
  function Subst(s: string, c: char, rep: string): string {
    if s == [] then [] else (if s[0] == c then rep else [s[0]]) + Subst(s[1..], c, rep)
  }

  lemma SubstAppend(a: string, b: string, c: char, rep: string)
    ensures Subst(a + b, c, rep) == Subst(a, c, rep) + Subst(b, c, rep)
  {
    if a != [] {
      assert (a + b)[0] == a[0] && (a + b)[1..] == a[1..] + b;
      SubstAppend(a[1..], b, c, rep);
    } else {
      assert a + b == b;
    }
  }

  lemma SubstAbsent(s: string, c: char, rep: string)
    requires c !in s
    ensures Subst(s, c, rep) == s
  {
    if s != [] {
      SubstAbsent(s[1..], c, rep);
    }
  }

  /** The composition Encode performs, backslashes first, is the escape. */
  lemma {:induction false} SubstsAreEscape(s: string)
    ensures Subst(Subst(Subst(s, '\\', "\\\\"), '"', "\\\""), '\n', "\\n") == Escape(s)
  {
    if s != [] {
      var head, tail := [s[0]], s[1..];
      assert s == head + tail;
      SubstAppend(head, tail, '\\', "\\\\");
      var a1, b1 := Subst(head, '\\', "\\\\"), Subst(tail, '\\', "\\\\");
      SubstAppend(a1, b1, '"', "\\\"");
      var a2, b2 := Subst(a1, '"', "\\\""), Subst(b1, '"', "\\\"");
      SubstAppend(a2, b2, '\n', "\\n");
      SubstsAreEscape(tail);
      assert Subst(a2, '\n', "\\n") == EscapeChar(s[0]) by {
        assert head[1..] == [];
        if s[0] == '\\' {
          assert a1 == "\\\\";
          assert a1 == ['\\'] + ['\\'];
          SubstAbsent(a1, '"', "\\\"");
          SubstAbsent(a1, '\n', "\\n");
        } else if s[0] == '"' {
          assert a1 == ['"'];
          assert a2 == "\\\"";
          SubstAbsent(a2, '\n', "\\n");
        } else {
          assert a1 == [s[0]];
          assert a2 == [s[0]];
        }
      }
    }
  }

  /** Why the order matters: escaping quotes before backslashes would
      double the backslash of every quote escape. */
  lemma QuotesFirstDoublesBackslash()
    ensures Subst(Subst("\"", '"', "\\\""), '\\', "\\\\") == "\\\\\""
    ensures Escape("\"") == "\\\""
  {
    assert Subst("\"", '"', "\\\"") == "\\\"" by {
      assert "\""[1..] == [];
    }
    var t := "\\\"";
    assert t[1..] == "\"" && t[1..][1..] == [];
  }

  // ---------------------------------------------------------------------
  // Encode
  // ---------------------------------------------------------------------

  /** Encode: backslashes doubled, then quotes escaped, then each newline,
      first occurrence first, replaced by backslash and n until none is
      left. In-out: s is the text passed in, r the text left behind. */
  method Encode(s: string) returns (r: string)
    ensures r == Escape(s)
  {
    r := Subst(s, '\\', "\\\\");
    r := Subst(r, '"', "\\\"");
    ghost var quoted := r;
    var more := true;
    while more
      invariant Subst(r, '\n', "\\n") == Subst(quoted, '\n', "\\n")
      invariant !more ==> '\n' !in r
      decreases Count(r, '\n') + (if more then 1 else 0)
    {
      var next;
      more, next := Replace(r, "\n", "\\n");
      if more {
        NewlineStep(r, next);
      } else {
        NoNewline(r);
      }
      r := next;
    }
    SubstAbsent(r, '\n', "\\n");
    SubstsAreEscape(s);
  }

  /** Without an occurrence of "\n" there is no newline. */
  lemma NoNewline(r: string)
    requires forall j :: 0 <= j <= |r| ==> !OccursAt(r, "\n", j)
    ensures '\n' !in r
  {
    forall j | 0 <= j < |r| ensures r[j] != '\n' {
      assert !OccursAt(r, "\n", j);
      assert r[j..j + 1] == [r[j]];
    }
  }

  /** Replacing the first newline keeps the final result of the loop and
      removes one newline. */
  lemma NewlineStep(r: string, next: string)
    requires exists k :: (0 <= k <= |r| && OccursAt(r, "\n", k)
      && (forall j :: 0 <= j < k ==> !OccursAt(r, "\n", j))
      && next == r[..k] + "\\n" + r[k + 1..])
    ensures Subst(next, '\n', "\\n") == Subst(r, '\n', "\\n")
    ensures Count(next, '\n') < Count(r, '\n')
  {
    var k :| 0 <= k <= |r| && OccursAt(r, "\n", k)
      && (forall j :: 0 <= j < k ==> !OccursAt(r, "\n", j))
      && next == r[..k] + "\\n" + r[k + 1..];
    var a, b := r[..k], r[k + 1..];
    assert r == a + "\n" + b by { assert r[k..k + 1] == "\n"; }
    SubstAppend(a + "\n", b, '\n', "\\n");
    SubstAppend(a, "\n", '\n', "\\n");
    SubstAppend(a + "\\n", b, '\n', "\\n");
    SubstAppend(a, "\\n", '\n', "\\n");
    assert Subst("\n", '\n', "\\n") == "\\n" by { assert "\n"[1..] == []; }
    SubstAbsent("\\n", '\n', "\\n");
    CountAppend(a + "\n", b, '\n');
    CountAppend(a, "\n", '\n');
    CountAppend(a + "\\n", b, '\n');
    CountAppend(a, "\\n", '\n');
    assert Count("\n", '\n') == 1 by { assert "\n"[..0] == []; }
  }
}
