/** String helpers with the meaning of their JavaScript namesakes. */
module Text {

  // The whitespace and line terminators String.prototype.trim removes.
  predicate IsSpace(c: char) {
    var code := c as int;
    || code in {0x9, 0xA, 0xB, 0xC, 0xD, 0x20, 0xA0, 0x1680, 0x2028, 0x2029, 0x202F, 0x205F, 0x3000, 0xFEFF}
    || 0x2000 <= code <= 0x200A
  }

  predicate AllSpace(s: string) { forall k :: 0 <= k < |s| ==> IsSpace(s[k]) }

  function TrimStart(s: string): string {
    if s == "" || !IsSpace(s[0]) then s else TrimStart(s[1..])
  }

  function TrimEnd(s: string): string {
    if s == "" || !IsSpace(s[|s| - 1]) then s else TrimEnd(s[..|s| - 1])
  }

  function Trim(s: string): string { TrimEnd(TrimStart(s)) }

  predicate EndsWith(s: string, suffix: string) { |suffix| <= |s| && s[|s| - |suffix|..] == suffix }

  predicate Contains(s: string, part: string) { exists i :: 0 <= i <= |s| && part <= s[i..] }

  // Whitespace around a text that neither begins nor ends with it is what trimming removes.
  lemma {:induction false} TrimStartPadded(before: string, s: string)
    requires AllSpace(before) && (s != "" ==> !IsSpace(s[0]))
    ensures TrimStart(before + s) == s
  {
    if before == "" {
      assert before + s == s;
    } else {
      assert (before + s)[1..] == before[1..] + s;
      TrimStartPadded(before[1..], s);
    }
  }

  lemma {:induction false} TrimEndPadded(s: string, after: string)
    requires AllSpace(after) && (s != "" ==> !IsSpace(s[|s| - 1]))
    ensures TrimEnd(s + after) == s
  {
    if after == "" {
      assert s + after == s;
    } else {
      assert (s + after)[..|s + after| - 1] == s + after[..|after| - 1];
      TrimEndPadded(s, after[..|after| - 1]);
    }
  }

  lemma {:induction false} TrimEndKeepsHead(s: string)
    requires s != "" && !IsSpace(s[0])
    ensures TrimEnd(s) != "" && TrimEnd(s)[0] == s[0]
  {
    if IsSpace(s[|s| - 1]) {
      TrimEndKeepsHead(s[..|s| - 1]);
    }
  }

  lemma TrimPadded(before: string, s: string, after: string)
    requires AllSpace(before) && AllSpace(after) && s != "" && !IsSpace(s[0]) && !IsSpace(s[|s| - 1])
    ensures Trim(before + s + after) == s
  {
    assert before + s + after == before + (s + after);
    TrimStartPadded(before, s + after);
    TrimEndPadded(s, after);
  }
}
