/**
 * escapeHtml (script.js:99-101): every one of the five markup characters
 * `& < > " '` is replaced by its character reference, every other character
 * is kept.  Unescape decodes exactly those five references and is the
 * inverse used to show that escaping loses nothing.
 */
module HtmlEscape {

  /** The characters matched by the regular expression /[&<>"']/g. */
  predicate IsSpecial(c: char) {
    c == '&' || c == '<' || c == '>' || c == '"' || c == '\''
  }

  /** A string in which escaping has nothing to replace. */
  predicate NoSpecial(s: string) {
    forall i :: 0 <= i < |s| ==> !IsSpecial(s[i])
  }

  predicate IsPrefix(p: string, s: string) {
    |p| <= |s| && s[..|p|] == p
  }

  /** The replacement table of escapeHtml. */
  function EscapeChar(c: char): string {
    match c
    case '&' => "&amp;"
    case '<' => "&lt;"
    case '>' => "&gt;"
    case '"' => "&quot;"
    case '\'' => "&#39;"
    case _ => [c]
  }

  function Escape(s: string): string {
    if s == [] then [] else EscapeChar(s[0]) + Escape(s[1..])
  }

  /** Decoding of the five references that Escape produces. */
  function Unescape(t: string): string
    decreases |t|
  {
    if t == [] then []
    else if IsPrefix("&amp;", t) then ['&'] + Unescape(t[5..])
    else if IsPrefix("&lt;", t) then ['<'] + Unescape(t[4..])
    else if IsPrefix("&gt;", t) then ['>'] + Unescape(t[4..])
    else if IsPrefix("&quot;", t) then ['"'] + Unescape(t[6..])
    else if IsPrefix("&#39;", t) then ['\''] + Unescape(t[5..])
    else [t[0]] + Unescape(t[1..])
  }

  /** One of the five references begins at position i of r. */
  predicate ReferenceAt(r: string, i: nat) {
    i <= |r| &&
    (IsPrefix("&amp;", r[i..]) || IsPrefix("&lt;", r[i..]) || IsPrefix("&gt;", r[i..]) ||
     IsPrefix("&quot;", r[i..]) || IsPrefix("&#39;", r[i..]))
  }

  /** Position i holds no raw `< > " '`, and an `&` there starts a reference. */
  predicate SafeAt(r: string, i: nat)
    requires i < |r|
  {
    r[i] != '<' && r[i] != '>' && r[i] != '"' && r[i] != '\'' &&
    (r[i] == '&' ==> ReferenceAt(r, i))
  }

  predicate Safe(r: string) {
    forall i :: 0 <= i < |r| ==> SafeAt(r, i)
  }

  lemma {:induction false} EscapeLength(s: string)
    ensures |Escape(s)| >= |s|
    ensures !NoSpecial(s) ==> |Escape(s)| > |s|
  {
    if s != [] {
      EscapeLength(s[1..]);
      if !NoSpecial(s) && !IsSpecial(s[0]) {
        var i :| 0 <= i < |s| && IsSpecial(s[i]);
        assert s[1..][i - 1] == s[i];
      }
    }
  }

  /** Escaping works one character at a time: it distributes over concatenation. */
  lemma {:induction false} EscapeConcat(a: string, b: string)
    ensures Escape(a + b) == Escape(a) + Escape(b)
  {
    if a == [] {
      assert a + b == b;
    } else {
      assert (a + b)[0] == a[0];
      assert (a + b)[1..] == a[1..] + b;
      EscapeConcat(a[1..], b);
    }
  }

  /** A string is left unchanged exactly when it holds none of `& < > " '`. */
  lemma {:induction false} EscapeFixpoint(s: string)
    ensures Escape(s) == s <==> NoSpecial(s)
  {
    if s != [] {
      EscapeFixpoint(s[1..]);
      if IsSpecial(s[0]) {
        EscapeLength(s);
      } else {
        assert Escape(s) == [s[0]] + Escape(s[1..]);
        assert s == [s[0]] + s[1..];
        assert Escape(s) == s <==> Escape(s[1..]) == s[1..];
        assert NoSpecial(s) <==> NoSpecial(s[1..]) by {
          assert forall i :: 0 < i < |s| ==> s[i] == s[1..][i - 1];
          assert forall i :: 0 <= i < |s[1..]| ==> s[1..][i] == s[i + 1];
        }
      }
    }
  }

  lemma SafeConcat(a: string, b: string)
    requires Safe(a) && Safe(b)
    ensures Safe(a + b)
  {
    var r := a + b;
    forall i | 0 <= i < |r| ensures SafeAt(r, i) {
      if i < |a| {
        assert r[i] == a[i] && SafeAt(a, i);
        if a[i] == '&' {
          assert ReferenceAt(a, i);
          assert a[i..] + b == r[i..];
          PrefixExtends(a[i..], b);
        }
      } else {
        assert r[i] == b[i - |a|] && SafeAt(b, i - |a|);
        assert r[i..] == b[i - |a|..];
      }
    }
  }

  lemma PrefixExtends(s: string, t: string)
    ensures forall p :: IsPrefix(p, s) ==> IsPrefix(p, s + t)
  {
    forall p | IsPrefix(p, s) ensures IsPrefix(p, s + t) {
      assert (s + t)[..|p|] == s[..|p|];
    }
  }

  lemma EscapeCharSafe(c: char)
    ensures Safe(EscapeChar(c))
  {
    var r := EscapeChar(c);
    if IsSpecial(c) {
      assert r[0] == '&' && r[0..] == r;
      assert ReferenceAt(r, 0);
      assert forall i :: 0 < i < |r| ==> r[i] != '&' && r[i] != '<' && r[i] != '>' && r[i] != '"' && r[i] != '\'';
    }
  }

  /**
   * The output of escapeHtml holds no `<`, `>`, `"` or `'`, and every `&`
   * in it begins one of the five references.
   */
  lemma {:induction false} EscapeSafe(s: string)
    ensures Safe(Escape(s))
  {
    if s != [] {
      EscapeCharSafe(s[0]);
      EscapeSafe(s[1..]);
      SafeConcat(EscapeChar(s[0]), Escape(s[1..]));
    }
  }

  /** No `<` at all in escaped text: it cannot open or close a tag. */
  lemma EscapeNoLessThan(s: string)
    ensures forall i :: 0 <= i < |Escape(s)| ==> Escape(s)[i] != '<'
  {
    EscapeSafe(s);
    assert forall i :: 0 <= i < |Escape(s)| ==> SafeAt(Escape(s), i);
  }

  lemma UnescapeAmp(t: string)
    ensures Unescape("&amp;" + t) == ['&'] + Unescape(t)
  {
    var u := "&amp;" + t;
    assert u[..5] == "&amp;" && u[5..] == t;
  }

  lemma UnescapeLt(t: string)
    ensures Unescape("&lt;" + t) == ['<'] + Unescape(t)
  {
    var u := "&lt;" + t;
    assert u[1] == 'l' && !IsPrefix("&amp;", u);
    assert u[..4] == "&lt;" && u[4..] == t;
  }

  lemma UnescapeGt(t: string)
    ensures Unescape("&gt;" + t) == ['>'] + Unescape(t)
  {
    var u := "&gt;" + t;
    assert u[1] == 'g' && !IsPrefix("&amp;", u) && !IsPrefix("&lt;", u);
    assert u[..4] == "&gt;" && u[4..] == t;
  }

  lemma UnescapeQuot(t: string)
    ensures Unescape("&quot;" + t) == ['"'] + Unescape(t)
  {
    var u := "&quot;" + t;
    assert u[1] == 'q' && !IsPrefix("&amp;", u) && !IsPrefix("&lt;", u) && !IsPrefix("&gt;", u);
    assert u[..6] == "&quot;" && u[6..] == t;
  }

  lemma UnescapeApos(t: string)
    ensures Unescape("&#39;" + t) == ['\''] + Unescape(t)
  {
    var u := "&#39;" + t;
    assert u[1] == '#';
    assert !IsPrefix("&amp;", u) && !IsPrefix("&lt;", u) && !IsPrefix("&gt;", u) && !IsPrefix("&quot;", u);
    assert u[..5] == "&#39;" && u[5..] == t;
  }

  lemma UnescapePlain(c: char, t: string)
    requires c != '&'
    ensures Unescape([c] + t) == [c] + Unescape(t)
  {
    var u := [c] + t;
    assert u[0] == c && u[1..] == t;
  }

  lemma UnescapeEscapeChar(c: char, t: string)
    ensures Unescape(EscapeChar(c) + t) == [c] + Unescape(t)
  {
    match c
    case '&' => UnescapeAmp(t);
    case '<' => UnescapeLt(t);
    case '>' => UnescapeGt(t);
    case '"' => UnescapeQuot(t);
    case '\'' => UnescapeApos(t);
    case _ => UnescapePlain(c, t);
  }

  /** Decoding the five references recovers the original string. */
  lemma {:induction false} UnescapeEscape(s: string)
    ensures Unescape(Escape(s)) == s
  {
    if s != [] {
      UnescapeEscapeChar(s[0], Escape(s[1..]));
      UnescapeEscape(s[1..]);
      assert [s[0]] + s[1..] == s;
    }
  }

  /** Distinct strings are never escaped to the same text. */
  lemma EscapeInjective(a: string, b: string)
    requires Escape(a) == Escape(b)
    ensures a == b
  {
    UnescapeEscape(a);
    UnescapeEscape(b);
  }

  /** Two worked examples of the escaping rule. */
  lemma EscapeExampleGt()
    ensures Escape("5 > 3") == "5 &gt; 3"
  {
    var s := "5 > 3";
    assert s[1..] == " > 3" && s[2..] == "> 3" && s[3..] == " 3" && s[4..] == "3";
  }

  lemma EscapeExampleApos()
    ensures Escape("O'Brien") == "O&#39;Brien"
  {
    var s := "O'Brien";
    assert s[1..] == "'Brien" && s[2..] == "Brien" && s[3..] == "rien";
    assert s[4..] == "ien" && s[5..] == "en" && s[6..] == "n";
  }
}
