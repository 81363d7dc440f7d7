/**
  The outcome of cleaning one file and the tally of a batch.
*/
module Results {
  import opened Wrappers
  import opened Files

  /**
    One cleaning outcome. Sizes are byte counts; `createdAt` is the ISO text
    of the moment the result was made.
  */
  datatype CleaningResult = CleaningResult(
    filePath: Path,
    success: bool,
    originalSize: nat,
    cleanedSize: nat,
    metadataRemoved: map<string, string>,
    errors: seq<string>,
    warnings: seq<string>,
    processingTime: real,
    backupPath: Option<Path>,
    contentHashBefore: Option<string>,
    contentHashAfter: Option<string>,
    createdAt: string)
  {
    /** Bytes saved; negative when cleaning grew the file. */
    function SizeReduction(): int {
      originalSize - cleanedSize
    }

    function SizeReductionPercent(): real {
      if originalSize == 0 then 0.0
      else (SizeReduction() as real / originalSize as real) * 100.0
    }

    function MetadataCount(): nat {
      |metadataRemoved|
    }
  }

  /**
    The percentage never exceeds 100, reaches it exactly when the file was
    emptied, and is negative exactly when the file grew.
  */
  lemma PercentBounds(r: CleaningResult)
    ensures r.SizeReduction() < 0 <==> r.cleanedSize > r.originalSize
    ensures r.originalSize == 0 ==> r.SizeReductionPercent() == 0.0
    ensures r.originalSize > 0 ==>
      r.SizeReductionPercent() * r.originalSize as real == r.SizeReduction() as real * 100.0
    ensures r.SizeReductionPercent() <= 100.0
    ensures r.originalSize > 0 ==> (r.SizeReductionPercent() == 100.0 <==> r.cleanedSize == 0)
    ensures r.originalSize > 0 ==> (r.SizeReductionPercent() < 0.0 <==> r.cleanedSize > r.originalSize)
  {
    if r.originalSize > 0 {
      var o := r.originalSize as real;
      var q := r.SizeReduction() as real / o;
      assert q * o == r.SizeReduction() as real;
      assert r.SizeReduction() as real <= o;
      ScaleOrder(q, o);
    }
  }

  /** For a positive `o`, `q` compares with 1 and 0 as `q * o` compares with `o` and 0. */
  lemma ScaleOrder(q: real, o: real)
    requires o > 0.0
    ensures q <= 1.0 <==> q * o <= o
    ensures q == 1.0 <==> q * o == o
    ensures q < 0.0 <==> q * o < 0.0
  {
    if q > 1.0 {
      assert (q - 1.0) * o > 0.0;
    }
    if q < 0.0 {
      assert (0.0 - q) * o > 0.0;
    }
  }

  /** A value of the dictionary `to_dict` produces. */
  datatype Json =
    | Null
    | Bool(b: bool)
    | Int(i: int)
    | Real(r: real)
    | Str(s: string)
    | StrList(items: seq<string>)
    | StrMap(entries: map<string, string>)
    | List(elems: seq<Json>)
    | Obj(fields: map<string, Json>)

  /** The keys of `CleaningResult.to_dict`. */
  const ResultKeys: set<string> := {
    "file_path", "success", "original_size", "cleaned_size", "size_reduction",
    "size_reduction_percent", "metadata_removed", "metadata_count", "errors",
    "warnings", "processing_time", "backup_path", "content_hash_before",
    "content_hash_after", "timestamp"}

  /** The rendering of a path as `str(path)`. */
  function PathText(p: Path): string
    decreases |p.dir|
  {
    if |p.dir| == 0 then "/" + p.name
    else PathText(Path(p.dir[..|p.dir| - 1], p.dir[|p.dir| - 1])) + "/" + p.name
  }

  function OptionalText(o: Option<string>): Json {
    if o.Some? then Str(o.value) else Null
  }

  /** `CleaningResult.to_dict` (floats are not rounded here). */
  function ResultToDict(r: CleaningResult): (d: map<string, Json>)
    ensures d.Keys == ResultKeys
  {
    map[
      "file_path" := Str(PathText(r.filePath)),
      "success" := Bool(r.success),
      "original_size" := Int(r.originalSize),
      "cleaned_size" := Int(r.cleanedSize),
      "size_reduction" := Int(r.SizeReduction()),
      "size_reduction_percent" := Real(r.SizeReductionPercent()),
      "metadata_removed" := StrMap(r.metadataRemoved),
      "metadata_count" := Int(r.MetadataCount()),
      "errors" := StrList(r.errors),
      "warnings" := StrList(r.warnings),
      "processing_time" := Real(r.processingTime),
      "backup_path" := if r.backupPath.Some? then Str(PathText(r.backupPath.value)) else Null,
      "content_hash_before" := OptionalText(r.contentHashBefore),
      "content_hash_after" := OptionalText(r.contentHashAfter),
      "timestamp" := Str(r.createdAt)]
  }

  /** `[r.to_dict() for r in results]`. */
  function ResultDicts(rs: seq<CleaningResult>): (ds: seq<Json>)
    ensures |ds| == |rs|
    ensures forall i :: 0 <= i < |rs| ==> ds[i].Obj? && ds[i].fields.Keys == ResultKeys
  {
    seq(|rs|, i requires 0 <= i < |rs| => Obj(ResultToDict(rs[i])))
  }

  /** The counters of a batch. */
  datatype Tally = Tally(total: int, successful: int, failed: int, sizeReduction: int)

  /** The counters after one `add_result`. */
  function Count(t: Tally, r: CleaningResult): Tally {
    if r.success then Tally(t.total + 1, t.successful + 1, t.failed, t.sizeReduction + r.SizeReduction())
    else Tally(t.total + 1, t.successful, t.failed + 1, t.sizeReduction)
  }

  /** The counters after adding `rs`, in order, to the zero batch. */
  function Fold(rs: seq<CleaningResult>): Tally
    decreases |rs|
  {
    if |rs| == 0 then Tally(0, 0, 0, 0)
    else Count(Fold(rs[..|rs| - 1]), rs[|rs| - 1])
  }

  /** How many results succeeded. */
  function Successes(rs: seq<CleaningResult>): nat
    decreases |rs|
  {
    if |rs| == 0 then 0 else (if rs[0].success then 1 else 0) + Successes(rs[1..])
  }

  /** The sum of `size_reduction` over the successful results. */
  function SuccessfulReduction(rs: seq<CleaningResult>): int
    decreases |rs|
  {
    if |rs| == 0 then 0
    else (if rs[0].success then rs[0].SizeReduction() else 0) + SuccessfulReduction(rs[1..])
  }

  lemma {:induction false} SuccessesSnoc(rs: seq<CleaningResult>, r: CleaningResult)
    ensures Successes(rs + [r]) == Successes(rs) + (if r.success then 1 else 0)
    ensures SuccessfulReduction(rs + [r]) ==
      SuccessfulReduction(rs) + (if r.success then r.SizeReduction() else 0)
    decreases |rs|
  {
    if |rs| > 0 {
      assert (rs + [r])[1..] == rs[1..] + [r];
      SuccessesSnoc(rs[1..], r);
    }
  }

  /**
    Adding results to the zero batch counts every result once, as a success
    or a failure, and totals the reductions of the successful ones only.
  */
  lemma {:induction false} FoldCounts(rs: seq<CleaningResult>)
    ensures Fold(rs).total == |rs| == Fold(rs).successful + Fold(rs).failed
    ensures Fold(rs).successful == Successes(rs)
    ensures Fold(rs).sizeReduction == SuccessfulReduction(rs)
    ensures 0 <= Fold(rs).successful <= Fold(rs).total
    decreases |rs|
  {
    if |rs| > 0 {
      var init := rs[..|rs| - 1];
      FoldCounts(init);
      SuccessesSnoc(init, rs[|rs| - 1]);
      assert init + [rs[|rs| - 1]] == rs;
    }
  }

  /** Counting two results in either order gives the same counters. */
  lemma CountCommutes(t: Tally, a: CleaningResult, b: CleaningResult)
    ensures Count(Count(t, a), b) == Count(Count(t, b), a)
  {
  }

  /** Any one result can be counted last. */
  lemma {:induction false} FoldRemove(rs: seq<CleaningResult>, i: nat)
    requires i < |rs|
    ensures Fold(rs) == Count(Fold(rs[..i] + rs[i + 1..]), rs[i])
    decreases |rs|
  {
    var n := |rs| - 1;
    if i == n {
      assert rs[..i] + rs[i + 1..] == rs[..n];
    } else {
      var init := rs[..n];
      var rest := init[..i] + init[i + 1..];
      FoldRemove(init, i);
      CountCommutes(Fold(rest), rs[i], rs[n]);
      assert rs[..i] + rs[i + 1..] == rest + [rs[n]];
      assert (rest + [rs[n]])[..|rest|] == rest;
    }
  }

  /** The counters do not depend on the order in which results arrive. */
  lemma {:induction false} FoldPermutation(a: seq<CleaningResult>, b: seq<CleaningResult>)
    requires multiset(a) == multiset(b)
    ensures Fold(a) == Fold(b)
    decreases |a|
  {
    if |a| > 0 {
      var n := |a| - 1;
      var x := a[n];
      assert a == a[..n] + [x];
      assert x in multiset(b);
      var j :| 0 <= j < |b| && b[j] == x;
      var rest := b[..j] + b[j + 1..];
      assert b == b[..j] + [x] + b[j + 1..];
      assert multiset(b) == multiset(b[..j]) + multiset([x]) + multiset(b[j + 1..]);
      assert multiset(a) == multiset(a[..n]) + multiset([x]);
      assert multiset(rest) == multiset(b[..j]) + multiset(b[j + 1..]);
      assert multiset(rest) == multiset(b) - multiset{x};
      assert multiset(a[..n]) == multiset(a) - multiset{x};
      FoldPermutation(a[..n], rest);
      FoldRemove(b, j);
    } else {
      assert |b| == 0;
    }
  }

  /** `BatchCleaningResult`. */
  class BatchCleaningResult {
    var totalFiles: int
    var successful: int
    var failed: int
    var skipped: int
    var results: seq<CleaningResult>
    var totalTime: real
    var totalSizeReduction: int

    /** The counters agree with the results added so far. */
    ghost predicate Consistent()
      reads this
    {
      Tally(totalFiles, successful, failed, totalSizeReduction) == Fold(results)
    }

    /** The zero batch. */
    constructor ()
      ensures totalFiles == 0 && successful == 0 && failed == 0 && skipped == 0
      ensures results == [] && totalTime == 0.0 && totalSizeReduction == 0
      ensures Consistent()
    {
      totalFiles, successful, failed, skipped := 0, 0, 0, 0;
      results := [];
      totalTime := 0.0;
      totalSizeReduction := 0;
    }

    /** `add_result`. */
    method AddResult(r: CleaningResult)
      modifies this
      ensures results == old(results) + [r]
      ensures totalFiles == old(totalFiles) + 1
      ensures r.success ==>
        (successful == old(successful) + 1 && failed == old(failed) &&
         totalSizeReduction == old(totalSizeReduction) + r.SizeReduction())
      ensures !r.success ==>
        (successful == old(successful) && failed == old(failed) + 1 &&
         totalSizeReduction == old(totalSizeReduction))
      ensures skipped == old(skipped) && totalTime == old(totalTime)
      ensures old(Consistent()) ==> Consistent()
    {
      results := results + [r];
      totalFiles := totalFiles + 1;
      if r.success {
        successful := successful + 1;
        totalSizeReduction := totalSizeReduction + r.SizeReduction();
      } else {
        failed := failed + 1;
      }
      assert results[..|results| - 1] == old(results);
    }

    /** `success_rate`: the share of successful results, in percent. */
    function SuccessRate(): (rate: real)
      reads this
      ensures totalFiles == 0 ==> rate == 0.0
      ensures totalFiles != 0 ==> rate * totalFiles as real == successful as real * 100.0
      ensures 0 <= successful <= totalFiles ==> 0.0 <= rate <= 100.0
    {
      if totalFiles == 0 then 0.0
      else (successful as real / totalFiles as real) * 100.0
    }

    /** `BatchCleaningResult.to_dict` (floats are not rounded here). */
    function ToDict(): (d: map<string, Json>)
      reads this
      ensures d.Keys == {"total_files", "successful", "failed", "skipped", "success_rate",
                         "total_time", "total_size_reduction", "results"}
      ensures d["results"].List? && |d["results"].elems| == |results|
    {
      map[
        "total_files" := Int(totalFiles),
        "successful" := Int(successful),
        "failed" := Int(failed),
        "skipped" := Int(skipped),
        "success_rate" := Real(SuccessRate()),
        "total_time" := Real(totalTime),
        "total_size_reduction" := Int(totalSizeReduction),
        "results" := List(ResultDicts(results))]
    }
  }

  /** In a consistent batch the success rate is a percentage. */
  lemma SuccessRateBounded(b: BatchCleaningResult)
    requires b.Consistent()
    ensures 0.0 <= b.SuccessRate() <= 100.0
    ensures b.totalFiles == |b.results| == b.successful + b.failed
    ensures b.totalSizeReduction == SuccessfulReduction(b.results)
  {
    FoldCounts(b.results);
  }
}
