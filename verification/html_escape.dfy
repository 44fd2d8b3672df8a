/**
 * PHP's `htmlspecialchars` with its default flags since PHP 8.1
 * (ENT_QUOTES | ENT_SUBSTITUTE | ENT_HTML401, double encoding on):
 * `&`, `<`, `>`, `"` and `'` become character references, every
 * other character is copied unchanged.
 */
module HtmlEscape {

  /** The five characters the escaping rewrites. */
  predicate IsSpecial(c: char) {
    c == '&' || c == '<' || c == '>' || c == '"' || c == '\''
  }

  /** The replacement text of one character. */
  function EscapeChar(c: char): (r: string)
    ensures |r| >= 1
    ensures IsSpecial(c) ==> r[0] == '&' && |r| >= 4
    ensures !IsSpecial(c) ==> r == [c]
  {
    match c
    case '&' => "&amp;"
    case '<' => "&lt;"
    case '>' => "&gt;"
    case '"' => "&quot;"
    case '\'' => "&#039;"
    case _ => [c]
  }

  /** `htmlspecialchars`: each character replaced by its `EscapeChar` text, in order. */
  function Escape(s: string): (r: string)
    ensures |r| >= |s|
    decreases |s|
  {
    if |s| == 0 then [] else EscapeChar(s[0]) + Escape(s[1..])
  }

  /** How many of the five special characters `s` contains. */
  function SpecialCount(s: string): nat
    decreases |s|
  {
    if |s| == 0 then 0 else (if IsSpecial(s[0]) then 1 else 0) + SpecialCount(s[1..])
  }

  /** Escaping never shortens text; it lengthens it by at least three characters per special character. */
  lemma {:induction false} EscapeLength(s: string)
    ensures |Escape(s)| >= |s| + 3 * SpecialCount(s)
    decreases |s|
  {
    if |s| > 0 {
      EscapeLength(s[1..]);
      assert |Escape(s)| == |EscapeChar(s[0])| + |Escape(s[1..])|;
    }
  }

  /** Escaping works character by character: the escaping of a concatenation is the concatenation of the escapings. */
  lemma {:induction false} EscapeConcat(a: string, b: string)
    ensures Escape(a + b) == Escape(a) + Escape(b)
    decreases |a|
  {
    if |a| == 0 {
      assert a + b == b;
    } else {
      var ab := a + b;
      assert ab[0] == a[0] && ab[1..] == a[1..] + b;
      calc {
        Escape(ab);
        EscapeChar(a[0]) + Escape(a[1..] + b);
        { EscapeConcat(a[1..], b); }
        EscapeChar(a[0]) + (Escape(a[1..]) + Escape(b));
        (EscapeChar(a[0]) + Escape(a[1..])) + Escape(b);
        Escape(a) + Escape(b);
      }
    }
  }

  /** The reference each single character is escaped to; with `EscapeConcat` this fixes the escaping of every text. */
  lemma EscapeOneChar(c: char)
    ensures c == '&' ==> Escape([c]) == "&amp;"
    ensures c == '<' ==> Escape([c]) == "&lt;"
    ensures c == '>' ==> Escape([c]) == "&gt;"
    ensures c == '"' ==> Escape([c]) == "&quot;"
    ensures c == '\'' ==> Escape([c]) == "&#039;"
    ensures !IsSpecial(c) ==> Escape([c]) == [c]
  {
    assert Escape([c]) == EscapeChar(c) + Escape([]);
  }

  /** Text that can be placed between HTML tags without changing the markup. */
  predicate IsHtmlSafe(s: string) {
    forall i :: 0 <= i < |s| ==> s[i] != '<' && s[i] != '>' && s[i] != '"' && s[i] != '\''
  }

  predicate HasPrefix(s: string, p: string) {
    |p| <= |s| && s[..|p|] == p
  }

  /** Decodes the five references `Escape` produces; any other text is copied. */
  function Unescape(s: string): string
    decreases |s|
  {
    if |s| == 0 then []
    else if HasPrefix(s, "&amp;") then ['&'] + Unescape(s[5..])
    else if HasPrefix(s, "&lt;") then ['<'] + Unescape(s[4..])
    else if HasPrefix(s, "&gt;") then ['>'] + Unescape(s[4..])
    else if HasPrefix(s, "&quot;") then ['"'] + Unescape(s[6..])
    else if HasPrefix(s, "&#039;") then ['\''] + Unescape(s[6..])
    else [s[0]] + Unescape(s[1..])
  }

  /** Escaped text never contains a raw `<`, `>`, `"` or `'`. */
  lemma {:induction false} EscapeIsHtmlSafe(s: string)
    ensures IsHtmlSafe(Escape(s))
    decreases |s|
  {
    if |s| > 0 {
      EscapeIsHtmlSafe(s[1..]);
      var h, t := EscapeChar(s[0]), Escape(s[1..]);
      assert Escape(s) == h + t;
      forall i | 0 <= i < |h + t|
        ensures (h + t)[i] != '<' && (h + t)[i] != '>' && (h + t)[i] != '"' && (h + t)[i] != '\''
      {
        if i >= |h| {
          assert (h + t)[i] == t[i - |h|];
        }
      }
    }
  }

  lemma UnescapeAmp(t: string)
    ensures Unescape("&amp;" + t) == ['&'] + Unescape(t)
  {
    var e := "&amp;" + t;
    assert e[..5] == "&amp;" && e[5..] == t;
  }

  lemma UnescapeLt(t: string)
    ensures Unescape("&lt;" + t) == ['<'] + Unescape(t)
  {
    var e := "&lt;" + t;
    assert e[1] == 'l';
    assert e[..4] == "&lt;" && e[4..] == t;
  }

  lemma UnescapeGt(t: string)
    ensures Unescape("&gt;" + t) == ['>'] + Unescape(t)
  {
    var e := "&gt;" + t;
    assert e[1] == 'g';
    assert e[..4] == "&gt;" && e[4..] == t;
  }

  lemma UnescapeQuot(t: string)
    ensures Unescape("&quot;" + t) == ['"'] + Unescape(t)
  {
    var e := "&quot;" + t;
    assert e[1] == 'q';
    assert e[..6] == "&quot;" && e[6..] == t;
  }

  lemma UnescapeApos(t: string)
    ensures Unescape("&#039;" + t) == ['\''] + Unescape(t)
  {
    var e := "&#039;" + t;
    assert e[1] == '#';
    assert e[..6] == "&#039;" && e[6..] == t;
  }

  lemma UnescapePlain(c: char, t: string)
    requires c != '&'
    ensures Unescape([c] + t) == [c] + Unescape(t)
  {
    var e := [c] + t;
    assert e[0] == c && e[1..] == t;
    assert !HasPrefix(e, "&amp;") && !HasPrefix(e, "&lt;") && !HasPrefix(e, "&gt;")
        && !HasPrefix(e, "&quot;") && !HasPrefix(e, "&#039;") by {
      assert "&amp;"[0] == '&' && "&lt;"[0] == '&' && "&gt;"[0] == '&';
      assert "&quot;"[0] == '&' && "&#039;"[0] == '&';
    }
  }

  lemma UnescapeAfterChar(c: char, t: string)
    ensures Unescape(EscapeChar(c) + t) == [c] + Unescape(t)
  {
    match c
    case '&' => UnescapeAmp(t);
    case '<' => UnescapeLt(t);
    case '>' => UnescapeGt(t);
    case '"' => UnescapeQuot(t);
    case '\'' => UnescapeApos(t);
    case _ => UnescapePlain(c, t);
  }

  /** Escaping loses nothing: decoding the references gives back the original text. */
  lemma {:induction false} UnescapeEscape(s: string)
    ensures Unescape(Escape(s)) == s
    decreases |s|
  {
    if |s| > 0 {
      UnescapeAfterChar(s[0], Escape(s[1..]));
      UnescapeEscape(s[1..]);
      assert [s[0]] + s[1..] == s;
    }
  }

  /** Text with none of the five characters passes through unchanged, and only such text does. */
  lemma {:induction false} EscapeIdentity(s: string)
    ensures Escape(s) == s <==> forall i :: 0 <= i < |s| ==> !IsSpecial(s[i])
    decreases |s|
  {
    if |s| > 0 {
      EscapeIdentity(s[1..]);
      EscapeLength(s);
      if IsSpecial(s[0]) {
      } else {
        assert Escape(s) == [s[0]] + Escape(s[1..]);
        if Escape(s) == s {
          assert Escape(s[1..]) == Escape(s)[1..];
        }
        assert (forall i :: 0 <= i < |s| ==> !IsSpecial(s[i])) <==>
               (forall i :: 0 <= i < |s[1..]| ==> !IsSpecial(s[1..][i])) by {
          if forall i :: 0 <= i < |s[1..]| ==> !IsSpecial(s[1..][i]) {
            forall i | 0 <= i < |s| ensures !IsSpecial(s[i]) {
              if i > 0 { assert s[i] == s[1..][i - 1]; }
            }
          }
        }
      }
    }
  }

  /** Plain text: none of the five characters occurs. */
  lemma PlainTextUnchanged(s: string)
    requires forall i :: 0 <= i < |s| ==> !IsSpecial(s[i])
    ensures Escape(s) == s
  {
    EscapeIdentity(s);
  }

  /** PHP's `empty` test on a string: the empty string and `"0"` count as empty. */
  predicate IsPhpEmpty(s: string) {
    s == "" || s == "0"
  }

  /** Escaping neither creates nor removes PHP-emptiness. */
  lemma EscapePreservesPhpEmpty(s: string)
    ensures IsPhpEmpty(Escape(s)) <==> IsPhpEmpty(s)
  {
    if |s| > 0 {
      var r := Escape(s);
      assert r == EscapeChar(s[0]) + Escape(s[1..]);
      if |s| == 1 {
        assert Escape(s[1..]) == [];
      } else {
        EscapeLength(s[1..]);
        assert |r| >= 2;
      }
    }
  }
}
