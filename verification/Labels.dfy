/**
 The labels of an enrolled job (packages/cli/src/fleet-registry.ts and cirujanoSkuForLabel of
 packages/cli/src/telemetry.ts), and the JSON text JSON.stringify gives them. A character here is a Unicode scalar
 value, so no lone surrogate arises.
 */
module Labels {
  import opened Contracts
  import opened Text

  // ---- enrollment ----

  predicate IsDigit(c: char) { '0' <= c <= '9' }

  predicate AllDigits(s: string) { forall k :: 0 <= k < |s| ==> IsDigit(s[k]) }

  // A number of one to four digits without a leading zero.
  predicate ShortNumber(s: string) { 1 <= |s| <= 4 && s[0] != '0' && AllDigits(s) }

  // Enrollment ids look like P1.
  predicate ValidId(id: string) { id != "" && id[0] == 'P' && ShortNumber(id[1..]) }

  datatype Sku = Linux | LinuxArm | Windows | Macos

  function SkuName(sku: Sku): string {
    match sku
    case Linux => "actions_linux"
    case LinuxArm => "actions_linux_arm"
    case Windows => "actions_windows"
    case Macos => "actions_macos"
  }

  // The label all enrollments of a SKU share, and the one an enrollment owns.
  function SharedLabel(sku: Sku): string { "cirujano-baseline-" + SkuName(sku) }

  function OwnLabel(number: string, sku: Sku): string { "cirujano-" + (['p'] + number) + "-" + SkuName(sku) }

  ghost function SkuForLabel(runnerLabel: string): Option<Sku> {
    if runnerLabel == "cirujano-pilot-fixture" || runnerLabel == SharedLabel(Linux)
       || exists number :: ShortNumber(number) && runnerLabel == OwnLabel(number, Linux)
    then Some(Linux) else None
  }

  // What parsing an enrollment accepts as its runner label.
  ghost predicate EnrolledLabel(id: string, sku: Sku, runnerLabel: string) {
    && ValidId(id) && SkuForLabel(runnerLabel) == Some(sku)
    && (runnerLabel == SharedLabel(sku) || runnerLabel == OwnLabel(id[1..], sku))
  }

  function RequiredLabels(runnerLabel: string): seq<string> { ["self-hosted", "linux", "x64", runnerLabel] }

  // ---- JSON ----

  function HexDigit(n: nat): char
    requires n < 16
  {
    if n < 10 then '0' + n as char else 'a' + (n - 10) as char
  }

  function JsonChar(c: char): string {
    var code := c as int;
    if c == '"' || c == '\\' then ['\\', c]
    else if code == 0x8 then "\\b"
    else if code == 0x9 then "\\t"
    else if code == 0xA then "\\n"
    else if code == 0xC then "\\f"
    else if code == 0xD then "\\r"
    else if code < 0x20 then "\\u00" + [HexDigit(code / 16), HexDigit(code % 16)]
    else [c]
  }

  function JsonText(s: string): string {
    if s == "" then "" else JsonChar(s[0]) + JsonText(s[1..])
  }

  function JsonString(s: string): string { ['"'] + JsonText(s) + ['"'] }

  function JsonItems(items: seq<string>): string {
    if items == [] then "" else if |items| == 1 then JsonString(items[0]) else JsonString(items[0]) + "," + JsonItems(items[1..])
  }

  function JsonList(items: seq<string>): string { "[" + JsonItems(items) + "]" }

  // ---- what stays as it is ----

  // A character that is written as itself and occurs in no escape.
  predicate Verbatim(c: char) { c == '\'' || c == '{' || c == '}' || c == '$' }

  predicate AllVerbatim(s: string) { forall k :: 0 <= k < |s| ==> Verbatim(s[k]) }

  predicate WrittenAsIs(s: string) { forall k :: 0 <= k < |s| ==> JsonChar(s[k]) == [s[k]] }

  lemma VerbatimChar(c: char)
    ensures Verbatim(c) ==> JsonChar(c) == [c]
    ensures JsonChar(c) != "" && forall k :: 0 <= k < |JsonChar(c)| && Verbatim(JsonChar(c)[k]) ==> k == 0 && JsonChar(c) == [c]
  {
  }

  lemma {:induction false} AsIs(s: string)
    requires WrittenAsIs(s)
    ensures JsonText(s) == s
  {
    if s != "" {
      AsIs(s[1..]);
    }
  }

  lemma {:induction false} JsonConcat(a: string, b: string)
    ensures JsonText(a + b) == JsonText(a) + JsonText(b)
  {
    if a == "" {
      assert a + b == b;
    } else {
      assert (a + b)[1..] == a[1..] + b;
      JsonConcat(a[1..], b);
    }
  }

  lemma {:induction false} QuoteKept(s: string)
    ensures '\'' in JsonText(s) <==> '\'' in s
  {
    if s != "" {
      VerbatimChar(s[0]);
      QuoteKept(s[1..]);
      assert s == [s[0]] + s[1..];
    }
  }

  lemma {:induction false} VerbatimPrefix(p: string, s: string)
    requires AllVerbatim(p) && p <= JsonText(s)
    ensures p <= s
  {
    if p != "" {
      var first := JsonChar(s[0]);
      VerbatimChar(s[0]);
      assert first[0] == p[0];
      assert JsonText(s)[1..] == JsonText(s[1..]);
      VerbatimPrefix(p[1..], s[1..]);
    }
  }

  // A verbatim part is found in the JSON text exactly when it is found in the string.
  lemma VerbatimPart(s: string, p: string)
    requires AllVerbatim(p) && p != ""
    ensures Contains(JsonText(s), p) <==> Contains(s, p)
  {
    if Contains(JsonText(s), p) {
      var i :| 0 <= i <= |JsonText(s)| && p <= JsonText(s)[i..];
      FoundInString(s, p, i);
    }
    if Contains(s, p) {
      var i :| 0 <= i <= |s| && p <= s[i..];
      FoundInJson(s, p, i);
    }
  }

  lemma {:induction false} FoundInString(s: string, p: string, i: nat)
    requires AllVerbatim(p) && p != "" && i <= |JsonText(s)| && p <= JsonText(s)[i..]
    ensures Contains(s, p)
  {
    if s != "" {
      var first, rest := JsonChar(s[0]), s[1..];
      VerbatimChar(s[0]);
      if i >= |first| {
        assert JsonText(s)[i..] == JsonText(rest)[i - |first|..];
        FoundInString(rest, p, i - |first|);
        var k :| 0 <= k <= |rest| && p <= rest[k..];
        assert s[k + 1..] == rest[k..];
      } else {
        assert JsonText(s)[i] == first[i] == p[0];
        assert JsonText(s)[0..] == JsonText(s);
        VerbatimPrefix(p, s);
        assert s[0..] == s;
      }
    }
  }

  lemma FoundInJson(s: string, p: string, i: nat)
    requires AllVerbatim(p) && i <= |s| && p <= s[i..]
    ensures Contains(JsonText(s), p)
  {
    var before, after := s[..i], s[i..][|p|..];
    assert s == before + (p + after);
    JsonConcat(before, p + after);
    JsonConcat(p, after);
    forall k | 0 <= k < |p| ensures JsonChar(p[k]) == [p[k]] {
      VerbatimChar(p[k]);
    }
    AsIs(p);
    assert JsonText(s)[|JsonText(before)|..] == p + JsonText(after);
  }

  // ---- the labels of a gate ----

  function LabelsHead(a: string, b: string, c: string): string { "[\"" + a + "\",\"" + b + "\",\"" + c + "\",\"" }

  const LABELS_HEAD := LabelsHead("self-hosted", "linux", "x64")
  const LABELS_TAIL := "\"]"

  predicate WordChar(c: char) { 'a' <= c <= 'z' || IsDigit(c) || c == '-' || c == '_' }

  predicate IsWord(s: string) { forall k :: 0 <= k < |s| ==> WordChar(s[k]) }

  lemma WordAsIs(s: string)
    requires IsWord(s)
    ensures JsonText(s) == s
  {
    AsIs(s);
  }

  lemma FixedWords()
    ensures IsWord("self-hosted") && IsWord("linux") && IsWord("x64")
  {
  }

  lemma ItemsOfFour(a: string, b: string, c: string, d: string)
    ensures JsonItems([a, b, c, d])
            == JsonString(a) + "," + (JsonString(b) + "," + (JsonString(c) + "," + JsonString(d)))
  {
    assert [c, d][1..] == [d] && JsonItems([d]) == JsonString(d);
    assert [b, c, d][1..] == [c, d] && JsonItems([c, d]) == JsonString(c) + "," + JsonString(d);
    assert [a, b, c, d][1..] == [b, c, d] && JsonItems([b, c, d]) == JsonString(b) + "," + (JsonString(c) + "," + JsonString(d));
  }

  lemma FourRegrouped(a: string, b: string, c: string, d: string)
    ensures "[" + ((['"'] + a + ['"']) + "," + ((['"'] + b + ['"']) + "," + ((['"'] + c + ['"']) + "," + (['"'] + d + ['"'])))) + "]"
            == LabelsHead(a, b, c) + (d + LABELS_TAIL)
  {
  }

  lemma LabelsText(runnerLabel: string)
    ensures JsonList(RequiredLabels(runnerLabel)) == LABELS_HEAD + (JsonText(runnerLabel) + LABELS_TAIL)
  {
    FixedWords();
    WordAsIs("self-hosted");
    WordAsIs("linux");
    WordAsIs("x64");
    FourText("self-hosted", "linux", "x64", runnerLabel);
  }

  lemma FourText(a: string, b: string, c: string, d: string)
    requires JsonText(a) == a && JsonText(b) == b && JsonText(c) == c
    ensures JsonList([a, b, c, d]) == LabelsHead(a, b, c) + (JsonText(d) + LABELS_TAIL)
  {
    ItemsOfFour(a, b, c, d);
    FourRegrouped(a, b, c, JsonText(d));
  }

  // Enrolled labels are written as they are, and hold neither quotes nor braces.
  predicate Harmless(s: string) { forall k :: 0 <= k < |s| ==> !Verbatim(s[k]) }

  lemma HarmlessWords()
    ensures Harmless("cirujano-baseline-") && Harmless("cirujano-") && Harmless("-")
    ensures Harmless("actions_linux") && Harmless("actions_linux_arm") && Harmless("actions_windows") && Harmless("actions_macos")
  {
  }

  lemma HarmlessJoin(a: string, b: string)
    requires Harmless(a) && Harmless(b)
    ensures Harmless(a + b)
  {
  }

  lemma WordHarmless(s: string)
    requires IsWord(s)
    ensures Harmless(s)
  {
  }

  lemma HeadHarmless(a: string, b: string, c: string)
    requires Harmless(a) && Harmless(b) && Harmless(c)
    ensures Harmless(LabelsHead(a, b, c))
  {
    var between := "\",\"";
    assert Harmless("[\"") && Harmless(between);
    HarmlessJoin("[\"", a);
    HarmlessJoin("[\"" + a, between);
    HarmlessJoin("[\"" + a + between, b);
    HarmlessJoin("[\"" + a + between + b, between);
    HarmlessJoin("[\"" + a + between + b + between, c);
    HarmlessJoin("[\"" + a + between + b + between + c, between);
  }

  lemma HeadEnd(a: string, b: string, c: string)
    ensures var head := LabelsHead(a, b, c); head != "" && head[|head| - 1] == '"'
  {
  }

  lemma LabelsHarmless()
    ensures Harmless(LABELS_HEAD) && Harmless(LABELS_TAIL)
    ensures LABELS_HEAD != "" && LABELS_HEAD[|LABELS_HEAD| - 1] == '"' && LABELS_TAIL[0] == '"'
  {
    FixedWords();
    WordHarmless("self-hosted");
    WordHarmless("linux");
    WordHarmless("x64");
    HeadHarmless("self-hosted", "linux", "x64");
    HeadEnd("self-hosted", "linux", "x64");
  }

  lemma EnrolledHarmless(id: string, sku: Sku, runnerLabel: string)
    requires EnrolledLabel(id, sku, runnerLabel)
    ensures Harmless(runnerLabel)
  {
    HarmlessWords();
    HarmlessJoin("cirujano-baseline-", SkuName(sku));
    assert forall k :: 0 <= k < |id[1..]| ==> IsDigit(id[1..][k]);
    HarmlessJoin(['p'], id[1..]);
    HarmlessJoin("cirujano-", ['p'] + id[1..]);
    HarmlessJoin("cirujano-" + (['p'] + id[1..]), "-");
    HarmlessJoin("cirujano-" + (['p'] + id[1..]) + "-", SkuName(sku));
  }

  // Only Linux enrollments exist: their label is the shared one or their own.
  lemma EnrolledIsLinux(id: string, sku: Sku, runnerLabel: string)
    requires ValidId(id)
    ensures EnrolledLabel(id, sku, runnerLabel)
            <==> sku == Linux && (runnerLabel == SharedLabel(Linux) || runnerLabel == OwnLabel(id[1..], Linux))
  {
  }

  // ---- reading JSON ----

  function HexValue(c: char): Option<nat> {
    if '0' <= c <= '9' then Some((c - '0') as nat)
    else if 'a' <= c <= 'f' then Some((c - 'a') as nat + 10)
    else if 'A' <= c <= 'F' then Some((c - 'A') as nat + 10)
    else None
  }

  // The character of the escape that begins after a backslash, and the length of the escape (section 7 of RFC 8259).
  // Escapes beyond the first 256 characters are not needed here.
  function Escaped(s: string): Option<(char, nat)>
    requires s != ""
  {
    if s[0] in {'"', '\\', '/'} then Some((s[0], 1))
    else if s[0] == 'b' then Some((0x8 as char, 1))
    else if s[0] == 't' then Some((0x9 as char, 1))
    else if s[0] == 'n' then Some((0xA as char, 1))
    else if s[0] == 'f' then Some((0xC as char, 1))
    else if s[0] == 'r' then Some((0xD as char, 1))
    else if s[0] == 'u' && |s| >= 5 && s[1] == '0' && s[2] == '0' && HexValue(s[3]).Some? && HexValue(s[4]).Some? then
      Some(((16 * HexValue(s[3]).value + HexValue(s[4]).value) as char, 5))
    else None
  }

  // The text that a JSON string stands for, from what is between its quotes.
  function JsonRead(s: string): Option<string>
    decreases |s|
  {
    if s == "" then Some("")
    else if s[0] == '"' || (s[0] as int) < 0x20 then None
    else if s[0] != '\\' then Joined(s[0], JsonRead(s[1..]))
    else if |s| == 1 || Escaped(s[1..]).None? || 1 + Escaped(s[1..]).value.1 > |s| then None
    else Joined(Escaped(s[1..]).value.0, JsonRead(s[1 + Escaped(s[1..]).value.1..]))
  }

  function Joined(c: char, rest: Option<string>): Option<string> {
    if rest.None? then None else Some([c] + rest.value)
  }

  lemma HexDigitRead(n: nat)
    requires n < 16
    ensures HexValue(HexDigit(n)) == Some(n)
  {
  }

  lemma CharRead(c: char, rest: string)
    ensures JsonRead(JsonChar(c) + rest) == Joined(c, JsonRead(rest))
  {
    var code, s := c as int, JsonChar(c) + rest;
    if |JsonChar(c)| == 1 {
      assert s[1..] == rest;
    } else if |JsonChar(c)| == 2 {
      assert s[2..] == rest && s[1] == JsonChar(c)[1];
    } else {
      HexDigitRead(code / 16);
      HexDigitRead(code % 16);
      assert s[6..] == rest && forall k :: 0 <= k < 6 ==> s[k] == JsonChar(c)[k];
    }
  }

  // The JSON text of a label reads back as the label.
  lemma {:induction false} JsonReadsBack(s: string)
    ensures JsonRead(JsonText(s)) == Some(s)
  {
    if s != "" {
      JsonReadsBack(s[1..]);
      CharRead(s[0], JsonText(s[1..]));
      assert s == [s[0]] + s[1..];
    }
  }
}
