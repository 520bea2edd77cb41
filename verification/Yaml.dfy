/** One-line YAML scalars, as far as the fleet reads them (packages/cli/src/fleet-routing.ts, yamlScalar). */
module Yaml {
  import opened Contracts
  import opened Text

  // ---- single quotes ----

  // replaceAll("''", "'"), left to right.
  function Undouble(s: string): string {
    if |s| >= 2 && s[0] == '\'' && s[1] == '\'' then ['\''] + Undouble(s[2..])
    else if s == "" then ""
    else [s[0]] + Undouble(s[1..])
  }

  // replaceAll("''", ""), left to right.
  function WithoutPairs(s: string): string {
    if |s| >= 2 && s[0] == '\'' && s[1] == '\'' then WithoutPairs(s[2..])
    else if s == "" then ""
    else [s[0]] + WithoutPairs(s[1..])
  }

  function Double(s: string): string {
    if s == "" then "" else if s[0] == '\'' then "''" + Double(s[1..]) else [s[0]] + Double(s[1..])
  }

  // ---- double quotes ----

  predicate NeedsEscape(c: char) { c == '"' || c == '\\' }

  function Escape(s: string): string {
    if s == "" then "" else if NeedsEscape(s[0]) then ['\\', s[0]] + Escape(s[1..]) else [s[0]] + Escape(s[1..])
  }

  // The bodies /^(?:[^"\\]|\\["\\])*$/ accepts.
  predicate EscapedBody(s: string) {
    || s == ""
    || (!NeedsEscape(s[0]) && EscapedBody(s[1..]))
    || (|s| >= 2 && s[0] == '\\' && NeedsEscape(s[1]) && EscapedBody(s[2..]))
  }

  function Unescape(s: string): string {
    if |s| >= 2 && s[0] == '\\' && NeedsEscape(s[1]) then [s[1]] + Unescape(s[2..])
    else if s == "" then ""
    else [s[0]] + Unescape(s[1..])
  }

  // ---- the scalar ----

  predicate Enclosed(s: string, quote: char) { |s| >= 2 && s[0] == quote && s[|s| - 1] == quote }

  // None where the fleet refuses the scalar.
  function YamlScalar(value: string): Option<string> {
    var trimmed := Trim(value);
    if Enclosed(trimmed, '\'') then
      var body := trimmed[1..|trimmed| - 1];
      if '\'' in WithoutPairs(body) then None else Some(Undouble(body))
    else if Enclosed(trimmed, '"') then
      var body := trimmed[1..|trimmed| - 1];
      if EscapedBody(body) then Some(Unescape(body)) else None
    else if Contains(trimmed, " #") then None
    else Some(trimmed)
  }

  // ---- reading undoes writing ----

  lemma {:induction false} DoubleUndone(s: string)
    ensures Undouble(Double(s)) == s && '\'' !in WithoutPairs(Double(s))
  {
    if s != "" {
      DoubleUndone(s[1..]);
      if s[0] == '\'' {
        assert Double(s)[2..] == Double(s[1..]);
      } else {
        assert Double(s)[1..] == Double(s[1..]);
      }
    }
  }

  // An accepted single-quoted body is the doubling of what is read from it.
  lemma {:induction false} UndoubleRedone(body: string)
    requires '\'' !in WithoutPairs(body)
    ensures Double(Undouble(body)) == body
    decreases |body|
  {
    if |body| >= 2 && body[0] == '\'' && body[1] == '\'' {
      UndoubleRedone(body[2..]);
      assert Undouble(body)[1..] == Undouble(body[2..]);
      assert body == "''" + body[2..];
    } else if body != "" {
      assert WithoutPairs(body)[0] == body[0] && WithoutPairs(body)[1..] == WithoutPairs(body[1..]);
      UndoubleRedone(body[1..]);
      assert Undouble(body)[1..] == Undouble(body[1..]);
      assert body == [body[0]] + body[1..];
    }
  }

  lemma {:induction false} EscapeUndone(s: string)
    ensures Unescape(Escape(s)) == s && EscapedBody(Escape(s))
  {
    if s != "" {
      EscapeUndone(s[1..]);
      if NeedsEscape(s[0]) {
        assert Escape(s)[2..] == Escape(s[1..]);
      } else {
        assert Escape(s)[1..] == Escape(s[1..]);
      }
    }
  }

  lemma {:induction false} UnescapeRedone(body: string)
    requires EscapedBody(body)
    ensures Escape(Unescape(body)) == body
    decreases |body|
  {
    if |body| >= 2 && body[0] == '\\' && NeedsEscape(body[1]) {
      assert EscapedBody(body[2..]);
      UnescapeRedone(body[2..]);
      assert Unescape(body)[1..] == Unescape(body[2..]);
      assert body == ['\\', body[1]] + body[2..];
    } else if body != "" {
      UnescapeRedone(body[1..]);
      assert Unescape(body)[1..] == Unescape(body[1..]);
      assert body == [body[0]] + body[1..];
    }
  }

  lemma QuotedTrims(before: string, quote: char, body: string, after: string)
    requires AllSpace(before) && AllSpace(after) && !IsSpace(quote)
    ensures Trim(before + ([quote] + body + [quote]) + after) == [quote] + body + [quote]
  {
    TrimPadded(before, [quote] + body + [quote], after);
  }

  lemma {:induction false} SingleQuotedRead(value: string, body: string)
    requires Trim(value) == ['\''] + body + ['\'']
    ensures YamlScalar(value) == if '\'' in WithoutPairs(body) then None else Some(Undouble(body))
  {
    assert Trim(value)[1..|Trim(value)| - 1] == body;
  }

  lemma {:induction false} DoubleQuotedRead(value: string, body: string)
    requires Trim(value) == ['"'] + body + ['"']
    ensures YamlScalar(value) == if EscapedBody(body) then Some(Unescape(body)) else None
  {
    assert Trim(value)[1..|Trim(value)| - 1] == body;
  }

  // A single-quoted scalar, however padded, is accepted exactly when its body is the doubling of a string, which is
  // then what is read.
  lemma {:induction false} SingleQuotedExactly(before: string, body: string, after: string, s: string)
    requires AllSpace(before) && AllSpace(after)
    ensures YamlScalar(before + (['\''] + body + ['\'']) + after) == Some(s) <==> body == Double(s)
  {
    QuotedTrims(before, '\'', body, after);
    SingleQuotedRead(before + (['\''] + body + ['\'']) + after, body);
    DoubleUndone(s);
    if '\'' !in WithoutPairs(body) {
      UndoubleRedone(body);
    }
  }

  // The same of a double-quoted scalar and escaping.
  lemma {:induction false} DoubleQuotedExactly(before: string, body: string, after: string, s: string)
    requires AllSpace(before) && AllSpace(after)
    ensures YamlScalar(before + (['"'] + body + ['"']) + after) == Some(s) <==> body == Escape(s)
  {
    QuotedTrims(before, '"', body, after);
    DoubleQuotedRead(before + (['"'] + body + ['"']) + after, body);
    EscapeUndone(s);
    if EscapedBody(body) {
      UnescapeRedone(body);
    }
  }

  // A plain scalar, however padded, reads as it stands, unless a comment would begin inside it.
  lemma PlainExactly(before: string, s: string, after: string)
    requires AllSpace(before) && AllSpace(after) && s != "" && !IsSpace(s[0]) && !IsSpace(s[|s| - 1])
    requires s[0] != '\'' && s[0] != '"'
    ensures YamlScalar(before + s + after) == if Contains(s, " #") then None else Some(s)
  {
    TrimPadded(before, s, after);
  }
}
