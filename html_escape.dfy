/** `escapeHtml` of static/js/script.js (lines 216-225): every `&`, `<`,
    `>`, `"` and `'` is replaced by its HTML entity, every other character
    is kept. Also a decoder that undoes it, which shows the map loses no
    information. */
module HtmlEscape {

  /** The five characters the regular expression `/[&<>"']/g` matches. */
  predicate IsSpecial(c: char) {
    c == '&' || c == '<' || c == '>' || c == '"' || c == '\''
  }

  /** The replacement table. */
  function Entity(c: char): (e: string)
    requires IsSpecial(c)
  {
    match c
    case '&' => "&amp;"
    case '<' => "&lt;"
    case '>' => "&gt;"
    case '"' => "&quot;"
    case _ => "&#039;"
  }

  /** The text of one character after escaping: its entity if it is one of
      the five, the character itself otherwise. Entities start with `&`,
      end with `;`, and use no special character after their first. */
  function EscapeChar(c: char): (s: string)
    ensures IsSpecial(c) ==> 4 <= |s| && s[0] == '&' && s[|s| - 1] == ';'
    ensures IsSpecial(c) ==> forall k :: 1 <= k < |s| ==> !IsSpecial(s[k])
    ensures !IsSpecial(c) ==> s == [c]
  {
    if IsSpecial(c) then Entity(c) else [c]
  }

  function EscapeHtml(text: string): string {
    if text == [] then [] else EscapeChar(text[0]) + EscapeHtml(text[1..])
  }

  /** One of the five entity strings starts at position i of s. */
  predicate EntityAt(s: string, i: nat)
    requires i <= |s|
  {
    var rest := s[i..];
    "&amp;" <= rest || "&lt;" <= rest || "&gt;" <= rest || "&quot;" <= rest || "&#039;" <= rest
  }

  /** Escaping a concatenation is concatenating the escaped parts. */
  lemma {:induction false} EscapeHtmlAppend(a: string, b: string)
    ensures EscapeHtml(a + b) == EscapeHtml(a) + EscapeHtml(b)
    decreases |a|
  {
    if a == [] {
      assert a + b == b;
    } else {
      assert (a + b)[0] == a[0];
      assert (a + b)[1..] == a[1..] + b;
      EscapeHtmlAppend(a[1..], b);
    }
  }

  /** A text with no `<`, `>`, `"` or `'`, in which every `&` begins one of
      the five entities. */
  predicate Safe(out: string) {
    forall i :: 0 <= i < |out| ==> SafeAt(out, i)
  }

  predicate SafeAt(out: string, i: nat)
    requires i < |out|
  {
    && out[i] != '<' && out[i] != '>' && out[i] != '"' && out[i] != '\''
    && (out[i] == '&' ==> EntityAt(out, i))
  }

  /** The output is safe to splice into HTML: it has no `<`, `>`, `"` or
      `'`, and every `&` in it begins one of the five entities. */
  lemma {:induction false} EscapeHtmlIsSafe(text: string)
    ensures Safe(EscapeHtml(text))
    decreases |text|
  {
    if text != [] {
      EscapeHtmlIsSafe(text[1..]);
      var head, tail := EscapeChar(text[0]), EscapeHtml(text[1..]);
      var out := head + tail;
      assert out == EscapeHtml(text);
      forall i | 0 <= i < |out|
        ensures SafeAt(out, i)
      {
        if i < |head| {
          if IsSpecial(text[0]) {
            if i == 0 {
              assert head <= out[i..];
              assert head == "&amp;" || head == "&lt;" || head == "&gt;" || head == "&quot;" || head == "&#039;";
            } else {
              assert out[i] == head[i] && !IsSpecial(head[i]);
            }
          } else {
            assert out[i] == text[0];
          }
        } else {
          var j := i - |head|;
          assert SafeAt(tail, j);
          assert out[i] == tail[j];
          assert out[i..] == tail[j..];
        }
      }
    }
  }

  /** Escaping never shortens the text, and keeps its length exactly when
      the text holds none of the five characters, in which case it is the
      identity. */
  lemma {:induction false} EscapeHtmlLength(text: string)
    ensures |EscapeHtml(text)| >= |text|
    ensures |EscapeHtml(text)| == |text| <==> forall i :: 0 <= i < |text| ==> !IsSpecial(text[i])
    ensures (forall i :: 0 <= i < |text| ==> !IsSpecial(text[i])) ==> EscapeHtml(text) == text
    decreases |text|
  {
    if text != [] {
      EscapeHtmlLength(text[1..]);
      assert forall i :: 1 <= i < |text| ==> text[i] == text[1..][i - 1];
      assert text == [text[0]] + text[1..];
    }
  }

  /** Decodes the five entities left to right, keeping every other character. */
  function Unescape(s: string): string
    decreases |s|
  {
    if s == [] then []
    else if "&amp;" <= s then "&" + Unescape(s[5..])
    else if "&lt;" <= s then "<" + Unescape(s[4..])
    else if "&gt;" <= s then ">" + Unescape(s[4..])
    else if "&quot;" <= s then "\"" + Unescape(s[6..])
    else if "&#039;" <= s then "'" + Unescape(s[6..])
    else [s[0]] + Unescape(s[1..])
  }

  lemma UnescapeChar(c: char, rest: string)
    ensures Unescape(EscapeChar(c) + rest) == [c] + Unescape(rest)
  {
    var s := EscapeChar(c) + rest;
    if IsSpecial(c) {
      var e := Entity(c);
      assert s[..|e|] == e;
      assert s[|e|..] == rest;
      assert s[0] == '&' && s[1] == e[1];
      match c
      case '&' =>
      case '<' => assert s[1] == 'l';
      case '>' => assert s[1] == 'g';
      case '"' => assert s[1] == 'q';
      case _ => assert s[1] == '#';
    } else {
      assert s[0] == c && s[1..] == rest;
    }
  }

  /** Decoding undoes escaping. */
  lemma {:induction false} UnescapeEscapeHtml(text: string)
    ensures Unescape(EscapeHtml(text)) == text
    decreases |text|
  {
    if text != [] {
      UnescapeChar(text[0], EscapeHtml(text[1..]));
      UnescapeEscapeHtml(text[1..]);
      assert text == [text[0]] + text[1..];
    }
  }

  /** So escaping is injective: two texts that escape alike are equal. */
  lemma EscapeHtmlInjective(a: string, b: string)
    requires EscapeHtml(a) == EscapeHtml(b)
    ensures a == b
  {
    UnescapeEscapeHtml(a);
    UnescapeEscapeHtml(b);
  }
}
