/** Writer names and output filename prefixes. */
module Naming {
  import opened Wrappers
  import opened Strings

  /** The name used when none (or an empty one) is given. */
  const DefaultName: string := "output-writer"

  /** Python's `name or "output-writer"`: None and "" both fall back to the default. */
  function BaseName(name: Option<string>): (b: string)
    ensures b != []
    ensures name.Some? && name.value != [] ==> b == name.value
  {
    if name.None? || name.value == [] then DefaultName else name.value
  }

  /**
    The writer's name: the base name, followed by `-id{id}` when `add_id`.
    The text after its last hyphen then spells out the id.
   */
  function WriterName(name: Option<string>, addId: bool, id: nat): (r: string)
    ensures |r| >= |BaseName(name)| && r[..|BaseName(name)|] == BaseName(name)
    ensures !addId ==> r == BaseName(name)
    ensures addId ==> AfterLast(r, '-') == "id" + Decimal(id)
    // Nothing stands between the base name and `-id{id}`.
    ensures addId ==> |r| == |BaseName(name)| + 3 + |Decimal(id)|
  {
    var base := BaseName(name);
    if addId then
      var r := base + "-id" + Decimal(id);
      assert r == base + ['-'] + ("id" + Decimal(id));
      AfterLastAppend(base, '-', "id" + Decimal(id));
      r
    else
      base
  }

  /** Writers with different ids and `add_id` have different names, whatever names they were given. */
  lemma DistinctIdsDistinctNames(name1: Option<string>, name2: Option<string>, id1: nat, id2: nat)
    requires id1 != id2
    ensures WriterName(name1, true, id1) != WriterName(name2, true, id2)
  {
    if WriterName(name1, true, id1) == WriterName(name2, true, id2) {
      var s1 := "id" + Decimal(id1);
      var s2 := "id" + Decimal(id2);
      assert s1 == s2;
      assert Decimal(id1) == s1[2..] && Decimal(id2) == s2[2..];
      DecimalInjective(id1, id2);
    }
  }

  function Zeros(k: int): (z: string)
    ensures |z| == if k < 0 then 0 else k
    ensures forall i :: 0 <= i < |z| ==> z[i] == '0'
  {
    if k <= 0 then [] else ['0'] + Zeros(k - 1)
  }

  /** `f"{n:05d}"` for a non-negative n: at least five digits, zero padded, never truncated. */
  function Pad5(n: nat): (r: string)
    ensures |r| == if |Decimal(n)| < 5 then 5 else |Decimal(n)|
    ensures AllDigits(r) && '-' !in r
    ensures DecimalValue(r) == n
  {
    var z := Zeros(5 - |Decimal(n)|);
    LeadingZeros(z, Decimal(n));
    DecimalRoundTrip(n);
    z + Decimal(n)
  }

  /**
    `filename_prefix`: the model's output prefix, the writer's name and
    `iter-` with the zero-padded iteration, joined by underscores. The
    iteration can be read back from the text after the last hyphen.
   */
  function FilenamePrefix(modelPrefix: string, writerName: string, iteration: nat): (r: string)
    ensures |r| > |modelPrefix| && r[..|modelPrefix| + 1] == modelPrefix + "_"
    // The writer's name follows, then `_iter-`.
    ensures |r| == |modelPrefix| + |writerName| + 7 + |Pad5(iteration)|
    ensures r[|modelPrefix| + 1..|modelPrefix| + 1 + |writerName|] == writerName
    ensures r[|modelPrefix| + 1 + |writerName|..|modelPrefix| + |writerName| + 7] == "_iter-"
    ensures AfterLast(r, '-') == Pad5(iteration)
    ensures DecimalValue(AfterLast(r, '-')) == iteration
  {
    var r := modelPrefix + "_" + writerName + "_" + "iter-" + Pad5(iteration);
    assert r == (modelPrefix + "_" + writerName + "_" + "iter") + ['-'] + Pad5(iteration);
    AfterLastAppend(modelPrefix + "_" + writerName + "_" + "iter", '-', Pad5(iteration));
    r
  }

  /** Writers with different names never share a filename prefix within one model, whatever the iterations. */
  lemma DistinctNamesDistinctPrefixes(modelPrefix: string, name1: string, name2: string, i: nat, j: nat)
    requires name1 != name2
    ensures FilenamePrefix(modelPrefix, name1, i) != FilenamePrefix(modelPrefix, name2, j)
  {
    if i != j {
      DistinctIterationsDistinctPrefixes(modelPrefix, name1, name2, i, j);
    } else {
      SameIterationDistinctNames(modelPrefix, name1, name2, i);
    }
  }

  /** Files of different iterations get different prefixes, whichever writers made them. */
  lemma DistinctIterationsDistinctPrefixes(modelPrefix: string, name1: string, name2: string, i: nat, j: nat)
    requires i != j
    ensures FilenamePrefix(modelPrefix, name1, i) != FilenamePrefix(modelPrefix, name2, j)
  {
    var r1 := FilenamePrefix(modelPrefix, name1, i);
    var r2 := FilenamePrefix(modelPrefix, name2, j);
    assert DecimalValue(AfterLast(r1, '-')) == i && DecimalValue(AfterLast(r2, '-')) == j;
  }

  /** At one iteration, writers with different names get different prefixes. */
  lemma SameIterationDistinctNames(modelPrefix: string, name1: string, name2: string, i: nat)
    requires name1 != name2
    ensures FilenamePrefix(modelPrefix, name1, i) != FilenamePrefix(modelPrefix, name2, i)
  {
    var r1 := FilenamePrefix(modelPrefix, name1, i);
    var r2 := FilenamePrefix(modelPrefix, name2, i);
    var m := |modelPrefix| + 1;
    if |name1| == |name2| {
      assert r1[m..m + |name1|] == name1 && r2[m..m + |name2|] == name2;
    }
  }

  lemma NamingExamples()
    ensures WriterName(None, true, 3) == "output-writer-id3"
    ensures WriterName(Some(""), false, 3) == "output-writer"
    ensures Pad5(42) == "00042"
    ensures Pad5(123456) == "123456"
  {
  }
}
