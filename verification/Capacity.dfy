/**
 The quota names of a capacity refusal, as the provider adapter reports them (packages/runner/src/adapters/nebius.ts).
 Journals written for such refusals are always readable again.
 */
module Capacity {
  import opened Contracts
  import opened Journaling

  // Each name once, where it first occurs.
  function Distinct(names: seq<string>): (r: seq<string>)
    ensures forall x :: x in r <==> x in names
    ensures forall i, k :: 0 <= i < k < |r| ==> r[i] != r[k]
  {
    if names == [] then []
    else
      var n := |names| - 1;
      var before := Distinct(names[..n]);
      assert names == names[..n] + [names[n]];
      if names[n] in before then before else before + [names[n]]
  }

  // The violations of a failed operation that carry a name.
  function Named(violations: seq<Option<string>>): (r: seq<string>)
    ensures forall x :: x in r <==> x != "" && Some(x) in violations
  {
    if violations == [] then []
    else
      var n := |violations| - 1;
      var before := Named(violations[..n]);
      assert violations == violations[..n] + [violations[n]];
      if violations[n].Some? && violations[n].value != "" then before + [violations[n].value] else before
  }

  predicate LetterOrDigit(c: char) { 'a' <= c <= 'z' || '0' <= c <= '9' }

  // What the pattern for quota names matches: it begins and ends with a letter or digit of its own.
  predicate MatchesName(name: string) {
    && |name| >= 2 && LetterOrDigit(name[0]) && LetterOrDigit(name[|name| - 1])
    && forall k :: 0 <= k < |name| ==> LetterOrDigit(name[k]) || name[k] in {'_', '.', '-'}
  }

  // From an error text, and from the details and the message of a failed operation.
  function OfText(matches: seq<string>): CapacityRefusal { CapacityRefusal(Distinct(matches)) }

  function OfOperation(violations: seq<Option<string>>, matches: seq<string>): CapacityRefusal {
    CapacityRefusal(Distinct(Named(violations) + Distinct(matches)))
  }

  // No refusal the adapter produces has an empty name, so the wait it leads to has a detail that reads back.
  lemma ProducedReadable(violations: seq<Option<string>>, matches: seq<string>)
    requires forall m :: m in matches ==> MatchesName(m)
    ensures Readable(OfText(matches)) && Readable(OfOperation(violations, matches))
    ensures "" !in OfText(matches).quotas && "" !in OfOperation(violations, matches).quotas
  {
    assert "" !in Distinct(matches);
    assert "" !in Named(violations) + Distinct(matches);
    assert "" in [""];
  }
}
