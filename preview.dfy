/** The input preview: `escapeHtml`, and the split `updateWordPreview`
    makes of the typed text around the first case-insensitive occurrence
    of the current fragment. */
module Preview {
  import opened Text

  /** The five characters `escapeHtml` replaces. */
  predicate IsSpecial(c: char) {
    c == '&' || c == '<' || c == '>' || c == '"' || c == '\''
  }

  /** A character that could open a tag or close an attribute value. */
  predicate IsMarkup(c: char) {
    c == '<' || c == '>' || c == '"' || c == '\''
  }

  /** The replacement table of `escapeHtml`. */
  function EscapeChar(c: char): (r: string)
    ensures IsSpecial(c) ==> |r| >= 4 && r[0] == '&' && r[|r| - 1] == ';'
    ensures !IsSpecial(c) ==> r == [c]
    ensures forall i :: 0 <= i < |r| ==> !IsMarkup(r[i])
  {
    match c
    case '&' => "&amp;"
    case '<' => "&lt;"
    case '>' => "&gt;"
    case '"' => "&quot;"
    case '\'' => "&#39;"
    case _ => [c]
  }

  /** `value.replace(/[&<>"']/g, ...)`: each character replaced by its entry. */
  function EscapeHtml(s: string): (r: string)
    ensures |r| >= |s|
    ensures forall i :: 0 <= i < |r| ==> !IsMarkup(r[i])
  {
    if s == [] then [] else EscapeChar(s[0]) + EscapeHtml(s[1..])
  }

  /** Escaping works character by character. */
  lemma {:induction false} EscapeConcat(a: string, b: string)
    ensures EscapeHtml(a + b) == EscapeHtml(a) + EscapeHtml(b)
    decreases |a|
  {
    if a != [] {
      assert (a + b)[0] == a[0] && (a + b)[1..] == a[1..] + b;
      EscapeConcat(a[1..], b);
      assert EscapeHtml(a + b) == EscapeChar(a[0]) + (EscapeHtml(a[1..]) + EscapeHtml(b));
    } else {
      assert a + b == b;
    }
  }

  /** Text without any of the five characters is left as it is. */
  lemma {:induction false} EscapeKeepsPlainText(s: string)
    requires forall i :: 0 <= i < |s| ==> !IsSpecial(s[i])
    ensures EscapeHtml(s) == s
    decreases |s|
  {
    if s != [] {
      EscapeKeepsPlainText(s[1..]);
    }
  }

  predicate StartsWith(r: string, p: string) {
    |p| <= |r| && r[..|p|] == p
  }

  /** Decoding of the five entities, the inverse of escaping. */
  function UnescapeHtml(r: string): (s: string)
    ensures |s| <= |r|
  {
    if r == [] then []
    else if StartsWith(r, "&amp;") then "&" + UnescapeHtml(r[5..])
    else if StartsWith(r, "&lt;") then "<" + UnescapeHtml(r[4..])
    else if StartsWith(r, "&gt;") then ">" + UnescapeHtml(r[4..])
    else if StartsWith(r, "&quot;") then "\"" + UnescapeHtml(r[6..])
    else if StartsWith(r, "&#39;") then "'" + UnescapeHtml(r[5..])
    else [r[0]] + UnescapeHtml(r[1..])
  }

  lemma StartsWithPrefix(p: string, rest: string)
    ensures StartsWith(p + rest, p) && (p + rest)[|p|..] == rest
  {
    assert (p + rest)[..|p|] == p;
  }

  /** Text that differs from `p` at position `i` does not start with `p`. */
  lemma DiffersAt(r: string, p: string, i: nat)
    requires i < |p| && i < |r| && r[i] != p[i]
    ensures !StartsWith(r, p)
  {
    if |p| <= |r| {
      assert r[..|p|][i] == r[i];
    }
  }

  lemma UnescapeChar(c: char, rest: string)
    ensures UnescapeHtml(EscapeChar(c) + rest) == [c] + UnescapeHtml(rest)
  {
    var p := EscapeChar(c);
    var e := p + rest;
    StartsWithPrefix(p, rest);
    assert e[0] == p[0] && (|p| > 1 ==> e[1] == p[1]);
    if c != '&' {
      DiffersAt(e, "&amp;", if IsSpecial(c) then 1 else 0);
    }
    if IsSpecial(c) && c != '&' && c != '<' {
      DiffersAt(e, "&lt;", 1);
    }
    if IsSpecial(c) && c != '&' && c != '<' && c != '>' {
      DiffersAt(e, "&gt;", 1);
    }
    if c == '\'' {
      DiffersAt(e, "&quot;", 1);
    }
    if !IsSpecial(c) {
      DiffersAt(e, "&lt;", 0);
      DiffersAt(e, "&gt;", 0);
      DiffersAt(e, "&quot;", 0);
      DiffersAt(e, "&#39;", 0);
      assert e[1..] == rest;
    }
  }

  /** Escaping loses nothing: decoding gives the original text back. */
  lemma {:induction false} EscapeRoundTrip(s: string)
    ensures UnescapeHtml(EscapeHtml(s)) == s
    decreases |s|
  {
    if s != [] {
      UnescapeChar(s[0], EscapeHtml(s[1..]));
      EscapeRoundTrip(s[1..]);
    }
  }

  /** What the overlay shows: nothing, the raw text, or the raw text split
      around the highlighted match. */
  datatype Overlay = Cleared | Plain(text: string) | Highlighted(before: string, matched: string, after: string)

  /** `updateWordPreview` on the input's value and the current fragment. */
  function WordPreview(raw: string, currentSubstring: string): Overlay {
    if raw == [] then Cleared
    else
      var uppercaseValue := Upper(raw);
      var target := Upper(currentSubstring);
      if target == [] then Plain(raw)
      else
        var matchIndex := IndexOf(uppercaseValue, target);
        if matchIndex == -1 then Plain(raw)
        else
          var stop := matchIndex + |currentSubstring|;
          Highlighted(raw[..matchIndex], raw[matchIndex..stop], raw[stop..])
  }

  /** The overlay is cleared exactly for empty input, and highlights exactly
      when the input contains the fragment up to case. */
  lemma PreviewCases(raw: string, currentSubstring: string)
    ensures var o := WordPreview(raw, currentSubstring);
            && (o == Cleared <==> raw == [])
            && (o.Highlighted? <==>
                  raw != [] && currentSubstring != [] && Contains(Upper(raw), Upper(currentSubstring)))
            && (o.Plain? ==> o.text == raw)
  {
  }

  /** A highlighted preview splits the input without losing or reordering a
      character, the match is the fragment up to case, and it is the first
      such place. */
  lemma PreviewSplit(raw: string, currentSubstring: string)
    requires WordPreview(raw, currentSubstring).Highlighted?
    ensures var o := WordPreview(raw, currentSubstring);
            && o.before + o.matched + o.after == raw
            && Upper(o.matched) == Upper(currentSubstring)
            && forall j :: 0 <= j < |o.before| ==> !OccursAt(Upper(raw), Upper(currentSubstring), j)
  {
    var target := Upper(currentSubstring);
    var at := IndexOf(Upper(raw), target);
    assert at != -1;
    var stop := at + |currentSubstring|;
    assert WordPreview(raw, currentSubstring) == Highlighted(raw[..at], raw[at..stop], raw[stop..]);
    MatchIsFragment(raw, target, at, currentSubstring);
    SplitThree(raw, at, stop);
  }

  /** The text at a position where the upper-cased fragment occurs in the
      upper-cased input is the fragment up to case. */
  lemma MatchIsFragment(raw: string, target: string, at: int, fragment: string)
    requires target == Upper(fragment) && OccursAt(Upper(raw), target, at)
    ensures at + |fragment| <= |raw| && Upper(raw[at..at + |fragment|]) == target
  {
    UpperSlice(raw, at, at + |fragment|);
  }

  lemma SplitThree(s: string, i: int, j: int)
    requires 0 <= i <= j <= |s|
    ensures s[..i] + s[i..j] + s[j..] == s
  {
  }

  const OPEN_TAG: string := "<span class=\"highlighted-substring\">"
  const CLOSE_TAG: string := "</span>"

  /** The markup written for a highlighted preview. */
  function PreviewHtml(before: string, matched: string, after: string): string {
    EscapeHtml(before) + OPEN_TAG + EscapeHtml(matched) + CLOSE_TAG + EscapeHtml(after)
  }

  /** Whatever was typed, every `<`, `>`, `"` or `'` of the highlighted
      markup lies inside one of the two tags of the span. */
  lemma PreviewHtmlMarkup(before: string, matched: string, after: string)
    ensures var html := PreviewHtml(before, matched, after);
            var open := |EscapeHtml(before)|;
            var close := open + |OPEN_TAG| + |EscapeHtml(matched)|;
            forall i :: 0 <= i < |html| && IsMarkup(html[i]) ==>
              (open <= i < open + |OPEN_TAG|) || (close <= i < close + |CLOSE_TAG|)
  {
    var b, m, a := EscapeHtml(before), EscapeHtml(matched), EscapeHtml(after);
    var html := PreviewHtml(before, matched, after);
    var open := |b|;
    var close := open + |OPEN_TAG| + |m|;
    forall i | 0 <= i < |html|
      ensures IsMarkup(html[i]) ==> (open <= i < open + |OPEN_TAG|) || (close <= i < close + |CLOSE_TAG|)
    {
      if i < open {
        assert html[i] == b[i];
      } else if open + |OPEN_TAG| <= i < close {
        assert html[i] == m[i - open - |OPEN_TAG|];
      } else if close + |CLOSE_TAG| <= i {
        assert html[i] == a[i - close - |CLOSE_TAG|];
      }
    }
  }
}
