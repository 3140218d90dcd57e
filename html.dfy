/** `escapeHtml` of both recap scripts: every `&`, `<`, `>`, `"` and `'` of the
    text is replaced by its character reference, everything else is kept. */
module Html {
  import opened Wrappers

  /** The five characters the escaper replaces. */
  predicate IsSpecial(c: char) {
    c == '&' || c == '<' || c == '>' || c == '"' || c == '\''
  }

  /** The replacement table of the escaper. */
  function EntityOf(c: char): (e: string)
    requires IsSpecial(c)
    ensures |e| >= 4 && e[0] == '&' && e[|e| - 1] == ';'
  {
    match c
    case '&' => "&amp;"
    case '<' => "&lt;"
    case '>' => "&gt;"
    case '"' => "&quot;"
    case _ => "&#39;"
  }

  predicate StartsWith(s: string, prefix: string) {
    |prefix| <= |s| && s[..|prefix|] == prefix
  }

  /** `s` begins with one of the five character references the escaper writes. */
  predicate BeginsEntity(s: string) {
    StartsWith(s, "&amp;") || StartsWith(s, "&lt;") || StartsWith(s, "&gt;") ||
    StartsWith(s, "&quot;") || StartsWith(s, "&#39;")
  }

  function EscapeChar(c: char): string {
    if IsSpecial(c) then EntityOf(c) else [c]
  }

  /** The regular-expression replacement `/[&<>"']/g`, one character at a time. */
  function EscapeHtml(s: string): string {
    if s == [] then [] else EscapeChar(s[0]) + EscapeHtml(s[1..])
  }

  /** `escapeHtml(s)` on a field that may be missing: `String(s || '')`. */
  function EscapeField(f: Option<string>): (r: string)
    ensures f == None || f == Some("") ==> r == []
  {
    EscapeHtml(f.GetOr(""))
  }

  /** Decodes the five character references and keeps every other character. */
  function UnescapeHtml(s: string): string
    decreases |s|
  {
    if s == [] then []
    else if StartsWith(s, "&amp;") then "&" + UnescapeHtml(s[5..])
    else if StartsWith(s, "&lt;") then "<" + UnescapeHtml(s[4..])
    else if StartsWith(s, "&gt;") then ">" + UnescapeHtml(s[4..])
    else if StartsWith(s, "&quot;") then "\"" + UnescapeHtml(s[6..])
    else if StartsWith(s, "&#39;") then "'" + UnescapeHtml(s[5..])
    else [s[0]] + UnescapeHtml(s[1..])
  }

  /** Escaping works character by character and in order: it distributes over
      concatenation. */
  lemma {:induction false} EscapeHtmlAppend(a: string, b: string)
    ensures EscapeHtml(a + b) == EscapeHtml(a) + EscapeHtml(b)
    decreases |a|
  {
    if a == [] {
      assert a + b == b;
    } else {
      assert (a + b)[1..] == a[1..] + b;
      EscapeHtmlAppend(a[1..], b);
    }
  }

  /** Text without any of the five characters comes out unchanged. */
  lemma {:induction false} EscapeHtmlPlain(s: string)
    requires forall k :: 0 <= k < |s| ==> !IsSpecial(s[k])
    ensures EscapeHtml(s) == s
    decreases |s|
  {
    if s != [] {
      EscapeHtmlPlain(s[1..]);
    }
  }

  /** The escaped text is safe to splice into markup: it holds none of `<`, `>`,
      `"`, `'`, and each `&` in it begins one of the five character references. */
  lemma {:induction false} EscapeHtmlSafe(s: string)
    ensures forall k :: 0 <= k < |EscapeHtml(s)| ==>
      EscapeHtml(s)[k] != '<' && EscapeHtml(s)[k] != '>' &&
      EscapeHtml(s)[k] != '"' && EscapeHtml(s)[k] != '\''
    ensures forall k :: 0 <= k < |EscapeHtml(s)| && EscapeHtml(s)[k] == '&' ==>
      BeginsEntity(EscapeHtml(s)[k..])
    decreases |s|
  {
    if s != [] {
      EscapeHtmlSafe(s[1..]);
      var head := EscapeChar(s[0]);
      var tail := EscapeHtml(s[1..]);
      var r := EscapeHtml(s);
      assert r == head + tail;
      forall k | 0 <= k < |r| && r[k] == '&'
        ensures BeginsEntity(r[k..])
      {
        if k < |head| {
          assert k == 0;
          assert r[k..] == head + tail;
        } else {
          assert r[k..] == tail[k - |head|..];
        }
      }
    }
  }

  /** The decoder reads one character reference back as the character it stands for. */
  lemma UnescapeEntity(c: char, t: string)
    requires IsSpecial(c)
    ensures UnescapeHtml(EntityOf(c) + t) == [c] + UnescapeHtml(t)
  {
    // Found unaided on some solver seeds only; these steps keep the proof reliable and cheap.
    var e := EntityOf(c);
    var r := e + t;
    assert r[..|e|] == e;
    assert r[|e|..] == t;
    assert r[1] == e[1] && r[2] == e[2];
  }

  /** Decoding the escaped text gives back the original text. */
  lemma {:induction false} EscapeHtmlRoundTrip(s: string)
    ensures UnescapeHtml(EscapeHtml(s)) == s
    decreases |s|
  {
    if s != [] {
      var head := EscapeChar(s[0]);
      var tail := EscapeHtml(s[1..]);
      var r := head + tail;
      assert EscapeHtml(s) == r;
      EscapeHtmlRoundTrip(s[1..]);
      assert r[|head|..] == tail;
      if IsSpecial(s[0]) {
        UnescapeEntity(s[0], tail);
      } else {
        assert r[0] == s[0] && s[0] != '&';
      }
    }
  }
}
