/**
 * The dataset assembly of scripts/create_my_dataset.py: the mGeNTE Set-N rows
 * and the MT-GenEval context rows are annotated, the context rows are balanced
 * by gender, rows without a schwa rewrite are dropped, both corpora are tagged
 * with constant columns, concatenated, shuffled, numbered and split.
 *
 * Tables are sequences of records; the library's `sort` is a stable sort on
 * the key column, its `shuffle` a caller-supplied permutation of positions.
 */
module DatasetBuilder {
  import opened Wrappers
  import opened Text
  import opened Seqs

  /** The exceptions the dataset library raises on the paths modelled here. */
  datatype DatasetError =
    | MissingAnnotations(split: string)  // no annotation table for a split
    | ColumnLengthMismatch               // `add_column` with a column of another length
    | MissingSplit(split: string)        // `new_splits["train"]` or `["test"]` absent
    | SelectOutOfRange                   // `select(range(k))` past the last row
    | MissingColumn(name: string)        // `ds[col]` for a column `ds` does not have

  // ================================================================ mGeNTE Set-N

  /** A row of the mGeNTE test split, reduced to the columns the dataset keeps. */
  datatype MgenteRow = MgenteRow(subset: string, europarlId: string, src: string, refG: string)

  /** A Set-N row with its schwa rewrite attached. */
  datatype SetNRow = SetNRow(europarlId: string, src: string, refG: string, schwa: string)

  predicate InSetN(r: MgenteRow) {
    r.subset == "Set-N"
  }

  /**
   * Keeps the Set-N rows and attaches the schwa rewrites by position; the
   * library refuses a column whose length differs from the table's.
   */
  function SelectSetN(rows: seq<MgenteRow>, schwa: seq<string>): (r: Result<seq<SetNRow>, DatasetError>)
    ensures r.Ok? <==> |schwa| == Count(InSetN, rows)
    ensures r.Ok? ==> |r.value| == |schwa|
    ensures r.Ok? ==> forall i :: 0 <= i < |schwa| ==>
      var m := Filter(InSetN, rows)[i];
      InSetN(m) && r.value[i] == SetNRow(m.europarlId, m.src, m.refG, schwa[i])
  {
    var setN := Filter(InSetN, rows);
    if |schwa| != |setN| then Err(ColumnLengthMismatch)
    else Ok(seq(|setN|, i requires 0 <= i < |setN| => SetNRow(setN[i].europarlId, setN[i].src, setN[i].refG, schwa[i])))
  }

  // ================================================================ MT-GenEval context

  /** A row of one split of the MT-GenEval context set. */
  datatype RawContextRow = RawContextRow(origId: string, source: string, context: string,
                                         refOriginal: string, refFlipped: string)

  /** One line of a split's annotation table: the original gender tag and the schwa rewrite. */
  datatype Annotation = Annotation(gender: string, schwa: string)

  /** A context row with its annotations and its corpus-wide identifier. */
  datatype ContextRow = ContextRow(origId: string, source: string, context: string,
                                   refOriginal: string, refFlipped: string,
                                   gender: string, schwa: string)

  function IdPrefix(split: string): string {
    "geneval_" + split + "_"
  }

  /** One split with its annotations attached by position and `orig_id` prefixed with the split name. */
  function AnnotateSplit(split: string, rows: seq<RawContextRow>, ann: seq<Annotation>): seq<ContextRow>
    requires |ann| == |rows|
  {
    seq(|rows|, i requires 0 <= i < |rows| =>
      ContextRow(IdPrefix(split) + rows[i].origId, rows[i].source, rows[i].context,
                 rows[i].refOriginal, rows[i].refFlipped, ann[i].gender, ann[i].schwa))
  }

  /** Every split has an annotation table of its own length, and both "train" and "test" exist. */
  predicate AugmentSucceeds(ds: map<string, seq<RawContextRow>>, features: map<string, seq<Annotation>>) {
    (forall s :: s in ds ==> s in features && |features[s]| == |ds[s]|)
    && "train" in ds && "test" in ds
  }

  /**
   * Annotates every split of the context set, one split per loop round, then
   * puts the train rows before the test rows.
   */
  method Augment(ds: map<string, seq<RawContextRow>>, features: map<string, seq<Annotation>>)
    returns (r: Result<seq<ContextRow>, DatasetError>)
    ensures r.Ok? <==> AugmentSucceeds(ds, features)
    ensures r.Ok? ==> r.value == AnnotateSplit("train", ds["train"], features["train"])
                                 + AnnotateSplit("test", ds["test"], features["test"])
  {
    var newSplits: map<string, seq<ContextRow>> := map[];
    var remaining := ds.Keys;
    while remaining != {}
      invariant remaining <= ds.Keys
      invariant newSplits.Keys == ds.Keys - remaining
      invariant forall s :: s in newSplits ==>
        s in features && |features[s]| == |ds[s]| && newSplits[s] == AnnotateSplit(s, ds[s], features[s])
      decreases remaining
    {
      var split :| split in remaining;
      if split !in features {
        return Err(MissingAnnotations(split));
      }
      if |features[split]| != |ds[split]| {
        return Err(ColumnLengthMismatch);
      }
      newSplits := newSplits[split := AnnotateSplit(split, ds[split], features[split])];
      remaining := remaining - {split};
    }
    if "train" !in newSplits {
      return Err(MissingSplit("train"));
    }
    if "test" !in newSplits {
      return Err(MissingSplit("test"));
    }
    return Ok(newSplits["train"] + newSplits["test"]);
  }

  /** No two rows of a table share an identifier. */
  predicate DistinctIds(ids: seq<string>) {
    forall i, j :: 0 <= i < j < |ids| ==> ids[i] != ids[j]
  }

  function OrigIds(rows: seq<RawContextRow>): seq<string> {
    seq(|rows|, i requires 0 <= i < |rows| => rows[i].origId)
  }

  function ContextIds(rows: seq<ContextRow>): seq<string> {
    seq(|rows|, i requires 0 <= i < |rows| => rows[i].origId)
  }

  /**
   * The prefix makes identifiers unique across splits: when each split's own
   * identifiers are distinct, so are all identifiers of the combined set, and
   * the combined set has exactly as many rows as the two splits.
   */
  lemma AugmentedIdsDistinct(train: seq<RawContextRow>, trainAnn: seq<Annotation>,
                             test: seq<RawContextRow>, testAnn: seq<Annotation>)
    requires |trainAnn| == |train| && |testAnn| == |test|
    requires DistinctIds(OrigIds(train)) && DistinctIds(OrigIds(test))
    ensures |AnnotateSplit("train", train, trainAnn) + AnnotateSplit("test", test, testAnn)| == |train| + |test|
    ensures DistinctIds(ContextIds(AnnotateSplit("train", train, trainAnn) + AnnotateSplit("test", test, testAnn)))
  {
    var all := AnnotateSplit("train", train, trainAnn) + AnnotateSplit("test", test, testAnn);
    var ids := ContextIds(all);
    forall i, j | 0 <= i < j < |ids| ensures ids[i] != ids[j] {
      if j < |train| {
        assert OrigIds(train)[i] != OrigIds(train)[j];
        PrefixedDiffer(IdPrefix("train"), train[i].origId, train[j].origId);
      } else if i >= |train| {
        assert OrigIds(test)[i - |train|] != OrigIds(test)[j - |train|];
        PrefixedDiffer(IdPrefix("test"), test[i - |train|].origId, test[j - |train|].origId);
      } else {
        assert ids[i][9] == 'r' && ids[j][9] == 'e';
      }
    }
  }

  lemma PrefixedDiffer(p: string, a: string, b: string)
    requires a != b
    ensures p + a != p + b
  {
    if |a| == |b| {
      var k :| 0 <= k < |a| && a[k] != b[k];
      assert (p + a)[|p| + k] != (p + b)[|p| + k];
    }
  }

  // ---------------------------------------------------------------- balancing by gender

  /** A context row after balancing: its new tag and the reference of that gender. */
  datatype BalancedRow = BalancedRow(origId: string, source: string, context: string,
                                     refOriginal: string, refFlipped: string,
                                     refG: string, gender: string, schwa: string)

  /** What identifies a context row independently of its gender tag and chosen reference. */
  datatype RowKey = RowKey(origId: string, source: string, context: string,
                           refOriginal: string, refFlipped: string, schwa: string)

  function KeyOf(r: ContextRow): RowKey {
    RowKey(r.origId, r.source, r.context, r.refOriginal, r.refFlipped, r.schwa)
  }

  function BalancedKeyOf(b: BalancedRow): RowKey {
    RowKey(b.origId, b.source, b.context, b.refOriginal, b.refFlipped, b.schwa)
  }

  predicate IsF(r: ContextRow) { r.gender == "F" }
  predicate IsM(r: ContextRow) { r.gender == "M" }
  predicate IsLabelled(r: ContextRow) { r.gender == "F" || r.gender == "M" }
  predicate LabelF(b: BalancedRow) { b.gender == "F" }
  predicate LabelM(b: BalancedRow) { b.gender == "M" }

  function GenderKey(r: ContextRow): string { r.gender }
  function OrigIdKey(b: BalancedRow): string { b.origId }

  /**
   * A row given the tag `tag`: its reference is the original translation
   * when the row already had that tag, the gender-flipped one otherwise.
   */
  function Attribute(r: ContextRow, tag: string): BalancedRow {
    BalancedRow(r.origId, r.source, r.context, r.refOriginal, r.refFlipped,
                if r.gender == tag then r.refOriginal else r.refFlipped, tag, r.schwa)
  }

  /** A whole group given one tag. */
  function Candidates(group: seq<ContextRow>, tag: string): (r: seq<BalancedRow>)
    ensures |r| == |group| && forall i :: 0 <= i < |group| ==> r[i] == Attribute(group[i], tag)
  {
    seq(|group|, i requires 0 <= i < |group| => Attribute(group[i], tag))
  }

  /**
   * `balance_geneval_context`: both candidate pools list the F group then the M
   * group; the first half of the rows (by count of the whole input) is taken from
   * the F pool, the rest from the M pool, and the result is sorted by `orig_id`.
   */
  function BalanceContext(ds: seq<ContextRow>): Result<seq<BalancedRow>, DatasetError>
  {
    var sorted := SortBy(GenderKey, ds);
    var f := Filter(IsF, sorted);
    var m := Filter(IsM, sorted);
    var splitpoint := |sorted| / 2;
    var fCombined := Candidates(f, "F") + Candidates(m, "F");
    var mCombined := Candidates(f, "M") + Candidates(m, "M");
    var combined := SelectHalves(fCombined, mCombined, splitpoint);
    if combined.Err? then Err(combined.error)
    else Ok(SortBy(OrigIdKey, combined.value))
  }

  /** The first `split` F candidates followed by the M candidates from `split` on, each taken by `select`. */
  function SelectHalves(fCombined: seq<BalancedRow>, mCombined: seq<BalancedRow>, split: nat)
    : Result<seq<BalancedRow>, DatasetError>
  {
    var fdef := SelectRange(fCombined, 0, split);
    if fdef.Err? then Err(fdef.error)
    else
      var mdef := SelectRange(mCombined, split, |mCombined|);
      if mdef.Err? then Err(mdef.error)
      else Ok(fdef.value + mdef.value)
  }

  /**
   * `t.select(range(start, stop))` of the datasets library: an empty table is
   * returned as it is; otherwise the range must start at an existing row and
   * end at most at the last one, so an empty range that starts at the end of
   * the table fails.
   */
  function SelectRange<T>(t: seq<T>, start: nat, stop: nat): (r: Result<seq<T>, DatasetError>)
    ensures r.Ok? <==> |t| == 0 || (start < |t| && start <= stop <= |t|)
    ensures r.Ok? ==> |r.value| == (if |t| == 0 then 0 else stop - start)
    ensures r.Ok? ==> forall i :: 0 <= i < |r.value| ==> r.value[i] == t[start + i]
    ensures r.Err? ==> r.error == SelectOutOfRange
  {
    if |t| == 0 then Ok(t)
    else if start < |t| && start <= stop <= |t| then Ok(t[start..stop])
    else Err(SelectOutOfRange)
  }

  /** The F group followed by the M group, in the order of the gender sort. */
  function Pool(ds: seq<ContextRow>): seq<ContextRow> {
    var sorted := SortBy(GenderKey, ds);
    Filter(IsF, sorted) + Filter(IsM, sorted)
  }

  /**
   * The rows `balance_geneval_context` keeps, before the final sort: pool row i
   * under the tag F for the first n/2 positions (n the input size), under M after.
   */
  function Kept(ds: seq<ContextRow>): seq<BalancedRow> {
    var pool := Pool(ds);
    var split := |ds| / 2;
    seq(|pool|, i requires 0 <= i < |pool| => Attribute(pool[i], if i < split then "F" else "M"))
  }

  /**
   * Balancing fails exactly when the pool is non-empty and holds no more than
   * n/2 rows (the second `select` then starts at or past its end); otherwise
   * it sorts the kept rows by `orig_id`.
   */
  lemma BalanceIsSortedKept(ds: seq<ContextRow>)
    ensures BalanceContext(ds).Ok? <==> |Pool(ds)| == 0 || |ds| / 2 < |Pool(ds)|
    ensures BalanceContext(ds).Ok? ==> BalanceContext(ds).value == SortBy(OrigIdKey, Kept(ds))
  {
    var sorted := SortBy(GenderKey, ds);
    var f := Filter(IsF, sorted);
    var m := Filter(IsM, sorted);
    var pool := f + m;
    assert pool == Pool(ds);
    CandidatesConcat(f, m, "F");
    CandidatesConcat(f, m, "M");
    SelectHalvesKept(Candidates(pool, "F"), Candidates(pool, "M"), Kept(ds), |ds| / 2);
  }

  /**
   * Selecting the halves of two candidate columns succeeds exactly when the
   * columns are empty or the split falls before their end, and then gives the
   * row-by-row choice between them.
   */
  lemma SelectHalvesKept(fCombined: seq<BalancedRow>, mCombined: seq<BalancedRow>, kept: seq<BalancedRow>, split: nat)
    requires |fCombined| == |mCombined| == |kept|
    requires forall i :: 0 <= i < |kept| ==> kept[i] == if i < split then fCombined[i] else mCombined[i]
    ensures SelectHalves(fCombined, mCombined, split).Ok? <==> |kept| == 0 || split < |kept|
    ensures SelectHalves(fCombined, mCombined, split).Ok? ==> SelectHalves(fCombined, mCombined, split).value == kept
  {
    if |kept| == 0 {
    } else if split < |kept| {
      assert SelectRange(fCombined, 0, split).value == fCombined[..split];
      assert SelectRange(mCombined, split, |mCombined|).value == mCombined[split..];
      KeptHalves(fCombined, mCombined, kept, split);
    }
  }

  /** Tagging a concatenation tags each part. */
  lemma CandidatesConcat(a: seq<ContextRow>, b: seq<ContextRow>, tag: string)
    ensures Candidates(a, tag) + Candidates(b, tag) == Candidates(a + b, tag)
  {
  }

  /** Two candidate columns cut at `split` and joined agree with the row-by-row choice between them. */
  lemma KeptHalves(fCombined: seq<BalancedRow>, mCombined: seq<BalancedRow>, kept: seq<BalancedRow>, split: nat)
    requires |fCombined| == |mCombined| == |kept| && split <= |kept|
    requires forall i :: 0 <= i < split ==> kept[i] == fCombined[i]
    requires forall i :: split <= i < |kept| ==> kept[i] == mCombined[i]
    ensures fCombined[..split] + mCombined[split..] == kept
  {
  }

  /** The pool holds each labelled input row exactly as often as the input does. */
  lemma PoolRows(ds: seq<ContextRow>)
    ensures multiset(Pool(ds)) == multiset(Filter(IsLabelled, ds))
  {
    var sorted := SortBy(GenderKey, ds);
    assert multiset(sorted) == multiset(ds);
    var f, m := Filter(IsF, sorted), Filter(IsM, sorted);
    var l := Filter(IsLabelled, ds);
    FilterMultiset(IsF, sorted);
    FilterMultiset(IsM, sorted);
    FilterMultiset(IsLabelled, ds);
    assert multiset(f + m) == multiset(f) + multiset(m);
    forall x ensures multiset(f + m)[x] == multiset(l)[x] {
      assert multiset(f)[x] == if IsF(x) then multiset(sorted)[x] else 0;
      assert multiset(m)[x] == if IsM(x) then multiset(sorted)[x] else 0;
      assert multiset(l)[x] == if IsLabelled(x) then multiset(ds)[x] else 0;
    }
  }

  /** The pool has one row per input row labelled F or M. */
  lemma PoolSize(ds: seq<ContextRow>)
    ensures |Pool(ds)| == Count(IsF, ds) + Count(IsM, ds)
  {
    var sorted := SortBy(GenderKey, ds);
    CountPermutation(IsF, sorted, ds);
    CountPermutation(IsM, sorted, ds);
  }

  /** Row `p` of the kept rows is pool row `p` under the tag F or M. */
  lemma KeptRowOrigin(ds: seq<ContextRow>, p: nat)
    requires p < |Pool(ds)|
    ensures var b := Kept(ds)[p]; var x := Pool(ds)[p];
      (b.gender == "F" || b.gender == "M") && x in ds && IsLabelled(x) && b == Attribute(x, b.gender)
  {
    PoolMember(ds, Pool(ds)[p]);
  }

  /** A pool row is a labelled input row. */
  lemma PoolMember(ds: seq<ContextRow>, x: ContextRow)
    requires x in Pool(ds)
    ensures x in ds && IsLabelled(x)
  {
    PoolRows(ds);
    var l := Filter(IsLabelled, ds);
    FilterMultiset(IsLabelled, ds);
    assert x in multiset(Pool(ds));
    assert x in multiset(l);
    assert multiset(l)[x] == if IsLabelled(x) then multiset(ds)[x] else 0;
    assert x in multiset(ds);
  }

  /** When every row is labelled F or M, the two labels count up to all rows. */
  lemma {:induction false} LabelledCount(ds: seq<ContextRow>)
    requires forall i :: 0 <= i < |ds| ==> IsLabelled(ds[i])
    ensures Count(IsF, ds) + Count(IsM, ds) == |ds|
    decreases |ds|
  {
    if ds != [] {
      LabelledCount(ds[1..]);
    }
  }

  /** The kept rows carry n/2 F tags and the rest M tags. */
  lemma CountKeptLabels(ds: seq<ContextRow>)
    requires |ds| / 2 <= |Pool(ds)|
    ensures Count(LabelF, Kept(ds)) == |ds| / 2
    ensures Count(LabelM, Kept(ds)) == |Pool(ds)| - |ds| / 2
  {
    var k := Kept(ds);
    assert forall i :: 0 <= i < |k| ==>
      if i < |ds| / 2 then LabelF(k[i]) && !LabelM(k[i]) else LabelM(k[i]) && !LabelF(k[i]);
    CountSplit(LabelF, LabelM, k, |ds| / 2);
  }

  /**
   * Size and balance of `balance_geneval_context`: it fails exactly when some
   * rows are labelled but no more than half of them (n/2, integer division of
   * the whole input size n); otherwise it returns one row per labelled input
   * row, of which, when there are any, exactly n/2 are labelled F and the rest
   * M. With every row labelled F or M it always succeeds and returns n rows,
   * n/2 of them F and n - n/2 of them M.
   */
  lemma BalanceCounts(ds: seq<ContextRow>)
    ensures BalanceContext(ds).Ok? <==>
      Count(IsF, ds) + Count(IsM, ds) == 0 || |ds| / 2 < Count(IsF, ds) + Count(IsM, ds)
    ensures BalanceContext(ds).Ok? ==>
      var out := BalanceContext(ds).value;
      |out| == Count(IsF, ds) + Count(IsM, ds)
      && (|out| > 0 ==>
            Count(LabelF, out) == |ds| / 2
            && Count(LabelM, out) == Count(IsF, ds) + Count(IsM, ds) - |ds| / 2)
    ensures (forall i :: 0 <= i < |ds| ==> IsLabelled(ds[i])) ==>
      BalanceContext(ds).Ok?
      && |BalanceContext(ds).value| == |ds|
      && Count(LabelF, BalanceContext(ds).value) == |ds| / 2
      && Count(LabelM, BalanceContext(ds).value) == |ds| - |ds| / 2
  {
    PoolSize(ds);
    BalanceIsSortedKept(ds);
    if |ds| / 2 <= |Pool(ds)| {
      var k := Kept(ds);
      CountKeptLabels(ds);
      CountPermutation(LabelF, SortBy(OrigIdKey, k), k);
      CountPermutation(LabelM, SortBy(OrigIdKey, k), k);
    }
    if forall i :: 0 <= i < |ds| ==> IsLabelled(ds[i]) {
      LabelledCount(ds);
    }
  }

  /**
   * Every labelled input row appears exactly once in the balanced output
   * (compared on everything but the tag and the chosen reference), and the
   * output is sorted by `orig_id`.
   */
  lemma BalanceKeepsEachRowOnce(ds: seq<ContextRow>)
    requires BalanceContext(ds).Ok?
    ensures multiset(MapSeq(BalancedKeyOf, BalanceContext(ds).value))
         == multiset(MapSeq(KeyOf, Filter(IsLabelled, ds)))
    ensures SortedBy(OrigIdKey, BalanceContext(ds).value)
  {
    BalanceIsSortedKept(ds);
    PoolRows(ds);
    var k := Kept(ds);
    var out := SortBy(OrigIdKey, k);
    MapPermutation(BalancedKeyOf, out, k);
    KeptKeys(ds);
    MapPermutation(KeyOf, Pool(ds), Filter(IsLabelled, ds));
  }

  /** Retagging changes neither the row nor its content: the kept rows carry the keys of the pool. */
  lemma KeptKeys(ds: seq<ContextRow>)
    ensures MapSeq(BalancedKeyOf, Kept(ds)) == MapSeq(KeyOf, Pool(ds))
  {
    var k, pool := Kept(ds), Pool(ds);
    forall i | 0 <= i < |pool| ensures BalancedKeyOf(k[i]) == KeyOf(pool[i]) {
    }
  }

  /**
   * Every output row is a labelled input row carrying the tag F or M and the
   * reference that tag selects: the original translation when the input row
   * had that tag, the flipped one otherwise.
   */
  lemma BalanceReferences(ds: seq<ContextRow>)
    requires BalanceContext(ds).Ok?
    ensures forall i :: 0 <= i < |BalanceContext(ds).value| ==> Retagged(ds, BalanceContext(ds).value[i])
  {
    BalanceIsSortedKept(ds);
    var k := Kept(ds);
    var out := SortBy(OrigIdKey, k);
    forall i | 0 <= i < |out| ensures Retagged(ds, out[i]) {
      assert out[i] in multiset(out);
      KeptMember(ds, out[i]);
    }
  }

  /** A labelled input row carrying the tag F or M and the reference that tag selects. */
  predicate Retagged(ds: seq<ContextRow>, b: BalancedRow) {
    (b.gender == "F" || b.gender == "M")
    && exists x :: x in ds && IsLabelled(x) && b == Attribute(x, b.gender)
  }

  lemma KeptMember(ds: seq<ContextRow>, b: BalancedRow)
    requires b in multiset(Kept(ds))
    ensures Retagged(ds, b)
  {
    var k := Kept(ds);
    var p :| 0 <= p < |k| && k[p] == b;
    KeptRowOrigin(ds, p);
  }


  // ---------------------------------------------------------------- dropping rows without a rewrite

  predicate HasSchwa(b: BalancedRow) {
    b.schwa != "None"
  }

  /** The balanced context rows whose schwa rewrite is not the literal "None". */
  function DropMissingSchwa(rows: seq<BalancedRow>): (r: seq<BalancedRow>)
    ensures forall i :: 0 <= i < |r| ==> r[i].schwa != "None"
    ensures forall x :: multiset(r)[x] == if x.schwa == "None" then 0 else multiset(rows)[x]
  {
    FilterMultiset(HasSchwa, rows);
    Filter(HasSchwa, rows)
  }

  /**
   * The filter works row by row and keeps the order: on a concatenation it is
   * the concatenation of the filtered parts, and a single row is kept exactly
   * when its rewrite is not "None".
   */
  lemma DropMissingSchwaKeepsOrder(a: seq<BalancedRow>, b: seq<BalancedRow>, x: BalancedRow)
    ensures DropMissingSchwa(a + b) == DropMissingSchwa(a) + DropMissingSchwa(b)
    ensures DropMissingSchwa([x]) == if x.schwa == "None" then [] else [x]
  {
    FilterConcat(HasSchwa, a, b);
    assert [x][1..] == [];
  }

  // ================================================================ the final table

  /** A row of the final table, before its `ID` is assigned. */
  datatype Entry = Entry(corpus: string, origId: string, src: string, refG: string,
                         gender: string, schwa: string)

  const SetNCorpus := "mGeNTE_Set-N"
  const ContextCorpus := "MT-GenEval_Context"

  /** Set-N rows tagged with the constant corpus name and the constant gender "N". */
  function TagSetN(rows: seq<SetNRow>): (r: seq<Entry>)
    ensures |r| == |rows|
    ensures forall i :: 0 <= i < |rows| ==>
      r[i].corpus == SetNCorpus && r[i].gender == "N"
      && r[i].origId == rows[i].europarlId && r[i].src == rows[i].src
      && r[i].refG == rows[i].refG && r[i].schwa == rows[i].schwa
  {
    seq(|rows|, i requires 0 <= i < |rows| =>
      Entry(SetNCorpus, rows[i].europarlId, rows[i].src, rows[i].refG, "N", rows[i].schwa))
  }

  /** Context rows tagged with the constant corpus name; `context` and both references are dropped. */
  function TagContext(rows: seq<BalancedRow>): (r: seq<Entry>)
    ensures |r| == |rows|
    ensures forall i :: 0 <= i < |rows| ==>
      r[i].corpus == ContextCorpus
      && r[i].origId == rows[i].origId && r[i].src == rows[i].source
      && r[i].refG == rows[i].refG && r[i].gender == rows[i].gender && r[i].schwa == rows[i].schwa
  {
    seq(|rows|, i requires 0 <= i < |rows| =>
      Entry(ContextCorpus, rows[i].origId, rows[i].source, rows[i].refG, rows[i].gender, rows[i].schwa))
  }

  /** Both corpora, Set-N first, before the shuffle. */
  function Combine(setN: seq<SetNRow>, context: seq<BalancedRow>): seq<Entry> {
    TagSetN(setN) + TagContext(DropMissingSchwa(context))
  }

  /** A row of the persisted table. */
  datatype Record = Record(id: int, entry: Entry)

  /** The `ID` column added after the shuffle: row i (from 0) gets i + 1. */
  function AssignIds(rows: seq<Entry>): (r: seq<Record>)
    ensures |r| == |rows|
    ensures forall i :: 0 <= i < |rows| ==> r[i].entry == rows[i] && r[i].id == i + 1
  {
    seq(|rows|, i requires 0 <= i < |rows| => Record(i + 1, rows[i]))
  }

  function Ids(rows: seq<Record>): seq<int> {
    seq(|rows|, i requires 0 <= i < |rows| => rows[i].id)
  }

  /** The identifiers are exactly 1..n, each once. */
  lemma IdsDense(rows: seq<Entry>)
    ensures forall i, j :: 0 <= i < j < |rows| ==> Ids(AssignIds(rows))[i] != Ids(AssignIds(rows))[j]
    ensures forall v :: v in Ids(AssignIds(rows)) <==> 1 <= v <= |rows|
  {
    var ids := Ids(AssignIds(rows));
    forall v | 1 <= v <= |rows| ensures v in ids {
      assert ids[v - 1] == v;
    }
  }

  /** The unshuffled split: the first `nTrain` rows for training, the rest for validation. */
  function SplitTrainVal(rows: seq<Record>, nTrain: nat): (r: (seq<Record>, seq<Record>))
    requires nTrain <= |rows|
    ensures |r.0| == nTrain && r.0 + r.1 == rows
  {
    (rows[..nTrain], rows[nTrain..])
  }

  /** The whole assembly after balancing: tag, concatenate, shuffle, number, split. */
  function BuildDataset(setN: seq<SetNRow>, context: seq<BalancedRow>, perm: seq<nat>, nTrain: nat)
    : (seq<Record>, seq<Record>)
    requires IsIndexPermutation(perm, |Combine(setN, context)|)
    requires nTrain <= |perm|
  {
    SplitTrainVal(AssignIds(Permute(Combine(setN, context), perm)), nTrain)
  }

  /** Where an entry can come from: a Set-N row of gender "N", or a context row with a rewrite. */
  predicate WellTagged(e: Entry) {
    (e.corpus == SetNCorpus && e.gender == "N") || (e.corpus == ContextCorpus && e.schwa != "None")
  }

  /** Every combined entry is tagged by its origin. */
  lemma CombinedTagged(setN: seq<SetNRow>, context: seq<BalancedRow>)
    ensures forall p :: 0 <= p < |Combine(setN, context)| ==> WellTagged(Combine(setN, context)[p])
  {
    var a, b := TagSetN(setN), TagContext(DropMissingSchwa(context));
    forall p | 0 <= p < |a + b| ensures WellTagged((a + b)[p]) {
      if p >= |a| {
        assert (a + b)[p] == b[p - |a|];
        assert HasSchwa(DropMissingSchwa(context)[p - |a|]);
      }
    }
  }

  /**
   * The persisted train and validation files, read one after the other, hold
   * every Set-N row and every context row with a rewrite exactly once, numbered
   * 1..n in file order; each row's corpus tag says where it came from, every
   * Set-N row has gender "N" and no context row has the rewrite "None".
   */
  lemma BuildDatasetProperties(setN: seq<SetNRow>, context: seq<BalancedRow>, perm: seq<nat>, nTrain: nat)
    requires IsIndexPermutation(perm, |Combine(setN, context)|)
    requires nTrain <= |perm|
    ensures var (train, val) := BuildDataset(setN, context, perm, nTrain);
      |train| == nTrain
      && |train + val| == |setN| + Count(HasSchwa, context)
      && (forall i :: 0 <= i < |train + val| ==> (train + val)[i].id == i + 1)
      && multiset(MapSeq(EntryOf, train + val)) == multiset(Combine(setN, context))
      && (forall i :: 0 <= i < |train + val| ==> WellTagged((train + val)[i].entry))
  {
    var combined := Combine(setN, context);
    var shuffled := Permute(combined, perm);
    var recs := AssignIds(shuffled);
    PermuteKeepsRows(combined, perm);
    assert MapSeq(EntryOf, recs) == shuffled;
    CombinedTagged(setN, context);
    assert forall i :: 0 <= i < |recs| ==> recs[i].entry == combined[perm[i]];
  }

  function EntryOf(r: Record): Entry { r.entry }

  // ================================================================ column order

  /** A named column of a table. */
  datatype Column<V> = Column(name: string, values: seq<V>)

  /** A column-oriented table: every column holds `numRows` values and names are distinct. */
  datatype Table<V> = Table(numRows: nat, columns: seq<Column<V>>)

  function Names<V>(cols: seq<Column<V>>): (r: seq<string>)
    ensures |r| == |cols| && forall i :: 0 <= i < |cols| ==> r[i] == cols[i].name
  {
    seq(|cols|, i requires 0 <= i < |cols| => cols[i].name)
  }

  predicate WellFormed<V>(t: Table<V>) {
    (forall i :: 0 <= i < |t.columns| ==> |t.columns[i].values| == t.numRows)
    && (forall i, j :: 0 <= i < j < |t.columns| ==> t.columns[i].name != t.columns[j].name)
  }

  /** `ds[name]`: the values of the column called `name`, if there is one. */
  function Lookup<V>(cols: seq<Column<V>>, name: string): (r: Option<seq<V>>)
    ensures r.Some? <==> name in Names(cols)
    ensures r.Some? ==> Column(name, r.value) in cols
    decreases |cols|
  {
    if cols == [] then None
    else if cols[0].name == name then Some(cols[0].values)
    else
      var r := Lookup(cols[1..], name);
      assert Names(cols) == [cols[0].name] + Names(cols[1..]);
      r
  }

  /** The entries of `s` without repeats, each where it first occurs. */
  function Distinct(s: seq<string>): (r: seq<string>)
    ensures forall i, j :: 0 <= i < j < |r| ==> r[i] != r[j]
    ensures forall x :: x in r <==> x in s
    decreases |s|
  {
    if s == [] then []
    else
      var d := Distinct(s[..|s| - 1]);
      assert s == s[..|s| - 1] + [s[|s| - 1]];
      if s[|s| - 1] in d then d else d + [s[|s| - 1]]
  }

  /** A list without repeats is its own list of distinct entries. */
  lemma {:induction false} DistinctOfDistinct(s: seq<string>)
    requires forall i, j :: 0 <= i < j < |s| ==> s[i] != s[j]
    ensures Distinct(s) == s
    decreases |s|
  {
    if s != [] {
      DistinctOfDistinct(s[..|s| - 1]);
      assert s == s[..|s| - 1] + [s[|s| - 1]];
    }
  }

  /** Every column of `t` is the column of the same name in `ds`. */
  ghost predicate ColumnsFrom<V>(ds: Table<V>, t: Table<V>) {
    forall j :: 0 <= j < |t.columns| ==> Lookup(ds.columns, t.columns[j].name) == Some(t.columns[j].values)
  }

  /** Adding a value to a list adds it to the distinct entries unless it is already there. */
  lemma DistinctSnoc(s: seq<string>, x: string)
    ensures Distinct(s + [x]) == if x in Distinct(s) then Distinct(s) else Distinct(s) + [x]
  {
    assert (s + [x])[..|s|] == s;
  }

  lemma NamesAppend<V>(cols: seq<Column<V>>, c: Column<V>)
    ensures Names(cols + [c]) == Names(cols) + [c.name]
  {
  }

  /** Appending a column of `ds` under a new name keeps the table well formed and drawn from `ds`. */
  lemma AddColumn<V>(ds: Table<V>, t: Table<V>, name: string, values: seq<V>)
    requires WellFormed(ds) && WellFormed(t) && t.numRows == ds.numRows && ColumnsFrom(ds, t)
    requires name !in Names(t.columns) && Lookup(ds.columns, name) == Some(values)
    ensures var t' := Table(t.numRows, t.columns + [Column(name, values)]);
      WellFormed(t') && ColumnsFrom(ds, t') && Names(t'.columns) == Names(t.columns) + [name]
  {
    var cols := t.columns;
    var cols' := cols + [Column(name, values)];
    assert Column(name, values) in ds.columns;
    assert |values| == t.numRows;
    forall i | 0 <= i < |cols'| ensures |cols'[i].values| == t.numRows {
      if i < |cols| { assert cols'[i] == cols[i]; }
    }
    forall i, j | 0 <= i < j < |cols'| ensures cols'[i].name != cols'[j].name {
      assert Names(cols)[i] == cols[i].name;
      if j < |cols| { assert cols'[i] == cols[i] && cols'[j] == cols[j]; }
    }
    forall j | 0 <= j < |cols'| ensures Lookup(ds.columns, cols'[j].name) == Some(cols'[j].values) {
      if j < |cols| { assert cols'[j] == cols[j]; }
    }
    NamesAppend(cols, Column(name, values));
  }

  /**
   * `reorder`: starts from the table with every column removed and adds, in the
   * order of `cols`, each column not yet added, taking its values from `ds`.
   * Fails when `cols` names a column `ds` lacks.
   */
  method Reorder<V>(ds: Table<V>, cols: seq<string>) returns (r: Result<Table<V>, DatasetError>)
    requires WellFormed(ds)
    ensures r.Ok? <==> forall c :: c in cols ==> c in Names(ds.columns)
    ensures r.Ok? ==> WellFormed(r.value) && r.value.numRows == ds.numRows
    ensures r.Ok? ==> Names(r.value.columns) == Distinct(cols)
    ensures r.Ok? ==> forall j :: 0 <= j < |r.value.columns| ==>
      Lookup(ds.columns, r.value.columns[j].name) == Some(r.value.columns[j].values)
  {
    var dsNew := Table(ds.numRows, []);
    for i := 0 to |cols|
      invariant WellFormed(dsNew) && dsNew.numRows == ds.numRows && ColumnsFrom(ds, dsNew)
      invariant Names(dsNew.columns) == Distinct(cols[..i])
      invariant forall c :: c in cols[..i] ==> c in Names(ds.columns)
    {
      assert cols[..i + 1] == cols[..i] + [cols[i]];
      DistinctSnoc(cols[..i], cols[i]);
      if cols[i] !in Names(dsNew.columns) {
        var values := Lookup(ds.columns, cols[i]);
        if values.None? {
          return Err(MissingColumn(cols[i]));
        }
        AddColumn(ds, dsNew, cols[i], values.value);
        dsNew := Table(dsNew.numRows, dsNew.columns + [Column(cols[i], values.value)]);
      }
    }
    assert cols[..|cols|] == cols;
    return Ok(dsNew);
  }
}
