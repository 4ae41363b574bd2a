/**
 * The key range of one index scan: which leading fields of the index its
 * bounds constrain, whether each bound is inclusive, and the mutable
 * `lexicographic` flag.
 */
module KeyRange {
  import opened Wrappers

  /** The row type of an index's keys; only its name and its number of declared fields matter here. */
  datatype IndexRowType = IndexRowType(name: string, declaredFields: nat)

  /**
   * A partial key value. `text` is what the bound renders itself as; `selector`
   * is its column selector: field i is included when i < |selector| and
   * selector[i] holds, so every selector over [0, N) can be written down.
   */
  datatype IndexBound = IndexBound(text: string, selector: seq<bool>)

  /** The failures of range construction (IllegalArgumentException and the builder's assertion). */
  datatype RangeError =
    | NullBounds        // bounded: "IndexBound arguments must not be null"
    | NullBound         // startingAt / endingAt: "IndexBound argument must not be null"
    | DifferentFields   // lo and hi select different fields of the index
    | NonLeadingFields  // a selected field follows an unselected one
    | NoBoundColumns    // the builder's `assert boundColumns > 0` fails

  predicate Includes(sel: seq<bool>, i: nat)
  {
    i < |sel| && sel[i]
  }

  /** Length of the run of included fields that starts at position 0, looking only at [0, n). */
  function LeadingCount(sel: seq<bool>, n: nat): (r: nat)
  {
    if n == 0 then 0
    else if LeadingCount(sel, n - 1) == n - 1 && Includes(sel, n - 1) then n
    else LeadingCount(sel, n - 1)
  }

  /** Some field in [0, n) is included although an earlier field is not. */
  ghost predicate SelectedAfterGap(sel: seq<bool>, n: nat)
  {
    exists g, j :: 0 <= g < j < n && !Includes(sel, g) && Includes(sel, j)
  }

  /** lo and hi disagree about field i. */
  predicate Mismatch(lo: seq<bool>, hi: seq<bool>, i: nat)
  {
    Includes(lo, i) != Includes(hi, i)
  }

  /**
   * Scanning fields in order, the first failing field is a mismatch: some field
   * in [0, n) is a mismatch and no field before it is a non-leading field of lo.
   * (At one position the mismatch test runs first, so a mismatch wins there.)
   */
  ghost predicate MismatchFirst(lo: seq<bool>, hi: seq<bool>, n: nat)
  {
    exists i :: 0 <= i < n && Mismatch(lo, hi, i) && !SelectedAfterGap(lo, i)
  }

  /** What the one-bound count helper produces for `bound` on an index of this row type. */
  ghost function SingleBoundResult(t: IndexRowType, bound: IndexBound): (r: Result<nat, RangeError>)
  {
    var n := t.declaredFields;
    if SelectedAfterGap(bound.selector, n) then Failure(NonLeadingFields)
    else if LeadingCount(bound.selector, n) == 0 then Failure(NoBoundColumns)
    else Success(LeadingCount(bound.selector, n))
  }

  /** What the two-bound count helper produces for `lo` and `hi`. */
  ghost function PairBoundResult(t: IndexRowType, lo: IndexBound, hi: IndexBound): (r: Result<nat, RangeError>)
  {
    if MismatchFirst(lo.selector, hi.selector, t.declaredFields) then Failure(DifferentFields)
    else SingleBoundResult(t, lo)
  }

  /** How the range constructor picks a helper: the single bound when the other one is absent. */
  ghost function BoundColumnsResult(t: IndexRowType, lo: Option<IndexBound>, hi: Option<IndexBound>): (r: Result<nat, RangeError>)
    requires lo.Some? || hi.Some?
  {
    if lo.None? then SingleBoundResult(t, hi.value)
    else if hi.None? then SingleBoundResult(t, lo.value)
    else PairBoundResult(t, lo.value, hi.value)
  }

  /** The rendering of one side of a range: the operator then the bound, or nothing. */
  function SideText(bound: Option<IndexBound>, inclusive: bool, inclusiveOp: string, exclusiveOp: string): (s: string)
  {
    match bound
    case None => ""
    case Some(b) => (if inclusive then inclusiveOp else exclusiveOp) + b.text
  }

  /** The rendering of a range, such as "(>=lo,<hi)". */
  function Rendering(lo: Option<IndexBound>, loInclusive: bool, hi: Option<IndexBound>, hiInclusive: bool): (s: string)
  {
    "(" + SideText(lo, loInclusive, ">=", ">") + "," + SideText(hi, hiInclusive, "<=", "<") + ")"
  }

  // ---------------------------------------------------------------------------
  // The count helpers, as the loops they are.
  // ---------------------------------------------------------------------------

  /** The helper that counts the bound columns of one bound. */
  method BoundColumnsSingle(t: IndexRowType, bound: IndexBound) returns (r: Result<nat, RangeError>)
    ensures r == SingleBoundResult(t, bound)
  {
    var selector := bound.selector;
    var selected := true;
    var boundColumns := 0;
    var i := 0;
    while i < t.declaredFields
      invariant 0 <= i <= t.declaredFields
      invariant boundColumns == LeadingCount(selector, i)
      invariant selected <==> boundColumns == i
      invariant !SelectedAfterGap(selector, i)
    {
      LeadingCountIsRun(selector, i);
      if selected {
        if Includes(selector, i) {
          boundColumns := boundColumns + 1;
        } else {
          selected := false;
        }
      } else {
        if Includes(selector, i) {
          assert !Includes(selector, boundColumns) && boundColumns < i;
          return Failure(NonLeadingFields);
        }
      }
      i := i + 1;
    }
    if boundColumns == 0 {
      return Failure(NoBoundColumns);
    }
    return Success(boundColumns);
  }

  /** The helper that counts the bound columns of a lo/hi pair. */
  method BoundColumnsPair(t: IndexRowType, lo: IndexBound, hi: IndexBound) returns (r: Result<nat, RangeError>)
    ensures r == PairBoundResult(t, lo, hi)
  {
    var loSelector := lo.selector;
    var hiSelector := hi.selector;
    var selected := true;
    var boundColumns := 0;
    var i := 0;
    while i < t.declaredFields
      invariant 0 <= i <= t.declaredFields
      invariant boundColumns == LeadingCount(loSelector, i)
      invariant selected <==> boundColumns == i
      invariant !SelectedAfterGap(loSelector, i)
      invariant forall j :: 0 <= j < i ==> !Mismatch(loSelector, hiSelector, j)
    {
      LeadingCountIsRun(loSelector, i);
      if Includes(loSelector, i) != Includes(hiSelector, i) {
        assert Mismatch(loSelector, hiSelector, i);
        return Failure(DifferentFields);
      }
      if selected {
        if Includes(loSelector, i) {
          boundColumns := boundColumns + 1;
        } else {
          selected := false;
        }
      } else {
        if Includes(loSelector, i) {
          var gap := boundColumns;
          assert !Includes(loSelector, gap) && gap < i;
          forall m | 0 <= m < t.declaredFields && Mismatch(loSelector, hiSelector, m)
            ensures SelectedAfterGap(loSelector, m)
          {
            assert gap < i < m;
          }
          return Failure(NonLeadingFields);
        }
      }
      i := i + 1;
    }
    if boundColumns == 0 {
      return Failure(NoBoundColumns);
    }
    return Success(boundColumns);
  }

  // ---------------------------------------------------------------------------
  // The range object.
  // ---------------------------------------------------------------------------

  class IndexKeyRange {
    const indexRowType: IndexRowType
    const boundColumns: nat
    const lo: Option<IndexBound>
    const loInclusive: bool
    const hi: Option<IndexBound>
    const hiInclusive: bool
    var lexicographic: bool

    /**
     * Object invariant: an absent bound has a false inclusive flag, a full scan
     * has no bound columns, and otherwise boundColumns is what the helpers compute.
     */
    ghost predicate Valid()
    {
      (lo.None? ==> !loInclusive) &&
      (hi.None? ==> !hiInclusive) &&
      if lo.None? && hi.None? then boundColumns == 0
      else BoundColumnsResult(indexRowType, lo, hi) == Success(boundColumns)
    }

    /** The constructor of a full scan. */
    constructor FullScan(indexRowType: IndexRowType)
      ensures this.indexRowType == indexRowType && boundColumns == 0
      ensures lo == None && !loInclusive && hi == None && !hiInclusive
      ensures !lexicographic && Valid()
    {
      this.boundColumns := 0;
      this.indexRowType := indexRowType;
      this.lo := None;
      this.loInclusive := false;
      this.hi := None;
      this.hiInclusive := false;
      this.lexicographic := false;
    }

    /** Stores the fields of a bounded range once its bound columns are known. */
    constructor Init(indexRowType: IndexRowType, lo: Option<IndexBound>, loInclusive: bool,
                     hi: Option<IndexBound>, hiInclusive: bool, boundColumns: nat)
      requires lo.Some? || hi.Some?
      requires lo.None? ==> !loInclusive
      requires hi.None? ==> !hiInclusive
      requires BoundColumnsResult(indexRowType, lo, hi) == Success(boundColumns)
      ensures this.indexRowType == indexRowType && this.boundColumns == boundColumns
      ensures this.lo == lo && this.loInclusive == loInclusive
      ensures this.hi == hi && this.hiInclusive == hiInclusive
      ensures !lexicographic && Valid()
    {
      this.boundColumns := boundColumns;
      this.indexRowType := indexRowType;
      this.lo := lo;
      this.loInclusive := loInclusive;
      this.hi := hi;
      this.hiInclusive := hiInclusive;
      this.lexicographic := false;
    }

    /**
     * The constructor of a range with at least one bound: computes the bound
     * columns with the helper that fits, and fails where that helper fails.
     */
    static method Create(indexRowType: IndexRowType, lo: Option<IndexBound>, loInclusive: bool,
                         hi: Option<IndexBound>, hiInclusive: bool) returns (r: Result<IndexKeyRange, RangeError>)
      requires lo.Some? || hi.Some?
      requires lo.None? ==> !loInclusive
      requires hi.None? ==> !hiInclusive
      ensures r.Failure? <==> BoundColumnsResult(indexRowType, lo, hi).Failure?
      ensures r.Failure? ==> r.error == BoundColumnsResult(indexRowType, lo, hi).error
      ensures r.Success? ==> fresh(r.value) && r.value.Valid() && !r.value.lexicographic
      ensures r.Success? ==> r.value.indexRowType == indexRowType
      ensures r.Success? ==> r.value.lo == lo && r.value.loInclusive == loInclusive
      ensures r.Success? ==> r.value.hi == hi && r.value.hiInclusive == hiInclusive
    {
      var count: Result<nat, RangeError>;
      if lo.None? {
        count := BoundColumnsSingle(indexRowType, hi.value);
      } else if hi.None? {
        count := BoundColumnsSingle(indexRowType, lo.value);
      } else {
        count := BoundColumnsPair(indexRowType, lo.value, hi.value);
      }
      if count.Failure? {
        return Failure(count.error);
      }
      var range := new IndexKeyRange.Init(indexRowType, lo, loInclusive, hi, hiInclusive, count.value);
      return Success(range);
    }

    /** A full index scan. */
    static method Unbounded(indexRowType: IndexRowType) returns (r: IndexKeyRange)
      ensures fresh(r) && r.Valid() && r.IsUnbounded() && r.boundColumns == 0
      ensures r.indexRowType == indexRowType && !r.loInclusive && !r.hiInclusive && !r.lexicographic
    {
      r := new IndexKeyRange.FullScan(indexRowType);
    }

    /** The keys between lo and hi; both bounds must be present. */
    static method Bounded(indexRowType: IndexRowType, lo: Option<IndexBound>, loInclusive: bool,
                          hi: Option<IndexBound>, hiInclusive: bool) returns (r: Result<IndexKeyRange, RangeError>)
      ensures lo.None? || hi.None? ==> r == Failure(NullBounds)
      ensures lo.Some? && hi.Some? ==>
        (r.Failure? <==> PairBoundResult(indexRowType, lo.value, hi.value).Failure?) &&
        (r.Failure? ==> r.error == PairBoundResult(indexRowType, lo.value, hi.value).error)
      ensures r.Success? ==> fresh(r.value) && r.value.Valid() && !r.value.lexicographic && !r.value.IsUnbounded()
      ensures r.Success? ==> r.value.indexRowType == indexRowType && r.value.boundColumns > 0
      ensures r.Success? ==> r.value.lo == lo && r.value.loInclusive == loInclusive
      ensures r.Success? ==> r.value.hi == hi && r.value.hiInclusive == hiInclusive
    {
      if lo.None? || hi.None? {
        return Failure(NullBounds);
      }
      r := Create(indexRowType, lo, loInclusive, hi, hiInclusive);
    }

    /** The keys at or after lo; the range has no upper bound. */
    static method StartingAt(indexRowType: IndexRowType, lo: Option<IndexBound>, loInclusive: bool)
      returns (r: Result<IndexKeyRange, RangeError>)
      ensures lo.None? ==> r == Failure(NullBound)
      ensures lo.Some? ==>
        (r.Failure? <==> SingleBoundResult(indexRowType, lo.value).Failure?) &&
        (r.Failure? ==> r.error == SingleBoundResult(indexRowType, lo.value).error)
      ensures r.Success? ==> fresh(r.value) && r.value.Valid() && !r.value.lexicographic && !r.value.IsUnbounded()
      ensures r.Success? ==> r.value.indexRowType == indexRowType && r.value.boundColumns > 0
      ensures r.Success? ==> r.value.lo == lo && r.value.loInclusive == loInclusive
      ensures r.Success? ==> r.value.hi == None && !r.value.hiInclusive
    {
      if lo.None? {
        return Failure(NullBound);
      }
      r := Create(indexRowType, lo, loInclusive, None, false);
    }

    /** The keys at or before hi; the range has no lower bound. */
    static method EndingAt(indexRowType: IndexRowType, hi: Option<IndexBound>, hiInclusive: bool)
      returns (r: Result<IndexKeyRange, RangeError>)
      ensures hi.None? ==> r == Failure(NullBound)
      ensures hi.Some? ==>
        (r.Failure? <==> SingleBoundResult(indexRowType, hi.value).Failure?) &&
        (r.Failure? ==> r.error == SingleBoundResult(indexRowType, hi.value).error)
      ensures r.Success? ==> fresh(r.value) && r.value.Valid() && !r.value.lexicographic && !r.value.IsUnbounded()
      ensures r.Success? ==> r.value.indexRowType == indexRowType && r.value.boundColumns > 0
      ensures r.Success? ==> r.value.lo == None && !r.value.loInclusive
      ensures r.Success? ==> r.value.hi == hi && r.value.hiInclusive == hiInclusive
    {
      if hi.None? {
        return Failure(NullBound);
      }
      r := Create(indexRowType, None, false, hi, hiInclusive);
    }

    /** A range is a full scan exactly when it has no bounds, which is when it constrains no column. */
    function IsUnbounded(): (b: bool)
      ensures b <==> lo.None? && hi.None?
      ensures Valid() ==> (b <==> boundColumns == 0)
    {
      lo.None? && hi.None?
    }

    /** The only mutable part of a range; every other field is a constant. */
    method SetLexicographic(lexicographic: bool)
      modifies this`lexicographic
      ensures this.lexicographic == lexicographic
    {
      this.lexicographic := lexicographic;
    }

    /** Builds the rendering step by step, as a string builder would. */
    method ToString() returns (s: string)
      ensures s == Rendering(lo, loInclusive, hi, hiInclusive)
    {
      var buffer := "(";
      if lo.Some? {
        buffer := buffer + (if loInclusive then ">=" else ">");
        buffer := buffer + lo.value.text;
      }
      buffer := buffer + ",";
      if hi.Some? {
        buffer := buffer + (if hiInclusive then "<=" else "<");
        buffer := buffer + hi.value.text;
      }
      buffer := buffer + ")";
      return buffer;
    }
  }

  // ---------------------------------------------------------------------------
  // Properties of the count.
  // ---------------------------------------------------------------------------

  /** The leading count is a run of included fields that stops at an excluded field or at n. */
  lemma {:induction false} LeadingCountIsRun(sel: seq<bool>, n: nat)
    ensures LeadingCount(sel, n) <= n
    ensures forall i :: 0 <= i < LeadingCount(sel, n) ==> Includes(sel, i)
    ensures LeadingCount(sel, n) < n ==> !Includes(sel, LeadingCount(sel, n))
  {
    if n > 0 {
      LeadingCountIsRun(sel, n - 1);
    }
  }

  /** Selectors that agree on [0, n) have the same leading count there. */
  lemma {:induction false} LeadingCountAgree(a: seq<bool>, b: seq<bool>, n: nat)
    requires forall i :: 0 <= i < n ==> !Mismatch(a, b, i)
    ensures LeadingCount(a, n) == LeadingCount(b, n)
  {
    if n > 0 {
      assert !Mismatch(a, b, n - 1);
      LeadingCountAgree(a, b, n - 1);
    }
  }

  /** A mismatch at or before i has a first mismatch. */
  lemma {:induction false} FirstMismatch(a: seq<bool>, b: seq<bool>, i: nat) returns (m: nat)
    requires Mismatch(a, b, i)
    ensures m <= i && Mismatch(a, b, m)
    ensures forall j :: 0 <= j < m ==> !Mismatch(a, b, j)
    decreases i
  {
    if exists j :: 0 <= j < i && Mismatch(a, b, j) {
      var j :| 0 <= j < i && Mismatch(a, b, j);
      m := FirstMismatch(a, b, j);
    } else {
      m := i;
    }
  }

  /**
   * The one-bound count: it succeeds with k exactly when fields [0, k) are
   * included, k > 0 and no later field of [0, N) is; it reports non-leading
   * fields exactly when an included field follows an excluded one; and it
   * fails the builder's assertion otherwise (N is 0 or field 0 is excluded).
   */
  lemma SingleBoundCharacterized(t: IndexRowType, bound: IndexBound)
    ensures SingleBoundResult(t, bound).Success? ==>
      var k, sel := SingleBoundResult(t, bound).value, bound.selector;
      0 < k <= t.declaredFields &&
      (forall i :: 0 <= i < k ==> Includes(sel, i)) &&
      (forall i :: k <= i < t.declaredFields ==> !Includes(sel, i))
    ensures SingleBoundResult(t, bound) == Failure(NonLeadingFields) <==> SelectedAfterGap(bound.selector, t.declaredFields)
    ensures SingleBoundResult(t, bound) == Failure(NoBoundColumns) <==>
      !SelectedAfterGap(bound.selector, t.declaredFields) && (t.declaredFields == 0 || !Includes(bound.selector, 0))
  {
    var n, sel := t.declaredFields, bound.selector;
    LeadingCountIsRun(sel, n);
    var k := LeadingCount(sel, n);
    if !SelectedAfterGap(sel, n) && k > 0 {
      forall i | k <= i < n
        ensures !Includes(sel, i)
      {
        if i > k {
          assert !Includes(sel, k);
        }
      }
    }
  }

  /** For 1 <= k <= N, a bound that selects exactly the first k fields binds k columns. */
  lemma PrefixBoundCount(t: IndexRowType, bound: IndexBound, k: nat)
    requires 1 <= k <= t.declaredFields
    requires forall i :: 0 <= i < t.declaredFields ==> (Includes(bound.selector, i) <==> i < k)
    ensures SingleBoundResult(t, bound) == Success(k)
  {
    PrefixLeadingCount(bound.selector, k, t.declaredFields);
  }

  lemma {:induction false} PrefixLeadingCount(sel: seq<bool>, k: nat, n: nat)
    requires k <= n
    requires forall i :: 0 <= i < n ==> (Includes(sel, i) <==> i < k)
    ensures LeadingCount(sel, n) == k
    ensures !SelectedAfterGap(sel, n)
  {
    if n > k {
      PrefixLeadingCount(sel, k, n - 1);
    } else if n > 0 {
      PrefixLeadingCount(sel, k - 1, n - 1);
    }
  }

  /**
   * The mismatch test wins over the leading test: when lo and hi disagree at
   * field i and no field before i breaks the leading rule, the pair is
   * rejected with DifferentFields, whatever follows.
   */
  lemma MismatchRejected(t: IndexRowType, lo: IndexBound, hi: IndexBound, i: nat)
    requires i < t.declaredFields && Mismatch(lo.selector, hi.selector, i)
    requires !SelectedAfterGap(lo.selector, i)
    ensures PairBoundResult(t, lo, hi) == Failure(DifferentFields)
  {
  }

  /**
   * lo and hi must select the same fields: a disagreement anywhere in [0, N)
   * rejects the pair. The error is DifferentFields or, when a gap in lo comes
   * first, NonLeadingFields.
   */
  lemma MismatchFails(t: IndexRowType, lo: IndexBound, hi: IndexBound, i: nat)
    requires i < t.declaredFields && Mismatch(lo.selector, hi.selector, i)
    ensures PairBoundResult(t, lo, hi) == Failure(DifferentFields) || PairBoundResult(t, lo, hi) == Failure(NonLeadingFields)
  {
    if SelectedAfterGap(lo.selector, i) {
      var g, j :| 0 <= g < j < i && !Includes(lo.selector, g) && Includes(lo.selector, j);
      assert SelectedAfterGap(lo.selector, t.declaredFields);
    }
  }

  /** A successful pair count k means lo and hi both select exactly fields [0, k) of [0, N). */
  lemma PairSuccessShape(t: IndexRowType, lo: IndexBound, hi: IndexBound)
    requires PairBoundResult(t, lo, hi).Success?
    ensures var k := PairBoundResult(t, lo, hi).value;
      0 < k <= t.declaredFields &&
      forall i :: 0 <= i < t.declaredFields ==>
        (Includes(lo.selector, i) <==> i < k) && (Includes(hi.selector, i) <==> i < k)
  {
    forall i | 0 <= i < t.declaredFields
      ensures !Mismatch(lo.selector, hi.selector, i)
    {
      if Mismatch(lo.selector, hi.selector, i) {
        MismatchFails(t, lo, hi, i);
      }
    }
    PairAgreeing(t, lo, hi);
    SingleBoundCharacterized(t, lo);
    var k := SingleBoundResult(t, lo).value;
    forall i | 0 <= i < t.declaredFields
      ensures (Includes(lo.selector, i) <==> i < k) && (Includes(hi.selector, i) <==> i < k)
    {
      assert !Mismatch(lo.selector, hi.selector, i);
    }
  }

  /** Selectors that agree on every declared field make the pair count the one-bound count of either bound. */
  lemma PairAgreeing(t: IndexRowType, lo: IndexBound, hi: IndexBound)
    requires forall i :: 0 <= i < t.declaredFields ==> !Mismatch(lo.selector, hi.selector, i)
    ensures PairBoundResult(t, lo, hi) == SingleBoundResult(t, lo) == SingleBoundResult(t, hi)
  {
    var n := t.declaredFields;
    LeadingCountAgree(lo.selector, hi.selector, n);
    GapAgree(lo.selector, hi.selector, n);
  }

  /** Whether a field follows a gap depends only on the fields before n. */
  lemma GapAgree(a: seq<bool>, b: seq<bool>, n: nat)
    requires forall i :: 0 <= i < n ==> !Mismatch(a, b, i)
    ensures SelectedAfterGap(a, n) == SelectedAfterGap(b, n)
  {
    if SelectedAfterGap(a, n) {
      var g, j :| 0 <= g < j < n && !Includes(a, g) && Includes(a, j);
      assert !Mismatch(a, b, g) && !Mismatch(a, b, j);
    }
    if SelectedAfterGap(b, n) {
      var g, j :| 0 <= g < j < n && !Includes(b, g) && Includes(b, j);
      assert !Mismatch(a, b, g) && !Mismatch(a, b, j);
    }
  }

  /** Exchanging lo and hi never changes the outcome of the pair count, error kind included. */
  lemma PairBoundSymmetric(t: IndexRowType, lo: IndexBound, hi: IndexBound)
    ensures PairBoundResult(t, lo, hi) == PairBoundResult(t, hi, lo)
  {
    var a, b, n := lo.selector, hi.selector, t.declaredFields;
    if exists i :: 0 <= i < n && Mismatch(a, b, i) {
      var i :| 0 <= i < n && Mismatch(a, b, i);
      var m := FirstMismatch(a, b, i);
      GapAgree(a, b, m);
      if SelectedAfterGap(a, m) {
        var g, j :| 0 <= g < j < m && !Includes(a, g) && Includes(a, j);
        assert !Mismatch(a, b, g) && !Mismatch(a, b, j);
        forall p | 0 <= p < n && Mismatch(a, b, p)
          ensures SelectedAfterGap(a, p) && SelectedAfterGap(b, p)
        {
          assert j < m <= p;
        }
        assert SelectedAfterGap(a, n) && SelectedAfterGap(b, n);
        assert !MismatchFirst(a, b, n) && !MismatchFirst(b, a, n);
      } else {
        assert MismatchFirst(a, b, n) && MismatchFirst(b, a, n);
      }
    } else {
      PairAgreeing(t, lo, hi);
      forall i | 0 <= i < n
        ensures !Mismatch(b, a, i)
      {
        assert !Mismatch(a, b, i);
      }
      PairAgreeing(t, hi, lo);
    }
  }

  /** A bound that does not include field 0 never yields a count: it fails one of the checks. */
  lemma FieldZeroRequired(t: IndexRowType, bound: IndexBound)
    requires !Includes(bound.selector, 0)
    ensures SingleBoundResult(t, bound).Failure?
  {
    assert LeadingCount(bound.selector, t.declaredFields) == 0 by {
      LeadingCountIsRun(bound.selector, t.declaredFields);
    }
  }

  // ---------------------------------------------------------------------------
  // Properties of the rendering.
  // ---------------------------------------------------------------------------

  /**
   * The rendering is framed by parentheses, shows whether there is a lower
   * bound in its second character and, when the lower bound's own text does
   * not begin with '=', whether it is inclusive in its third.
   */
  lemma RenderingRecoversLowerSide(lo: Option<IndexBound>, loInclusive: bool, hi: Option<IndexBound>, hiInclusive: bool)
    ensures var s := Rendering(lo, loInclusive, hi, hiInclusive);
      |s| >= 3 && s[0] == '(' && s[|s| - 1] == ')' &&
      (lo.None? <==> s[1] == ',') &&
      (lo.Some? && (lo.value.text == [] || lo.value.text[0] != '=') ==> (loInclusive <==> s[2] == '='))
  {
  }
}
