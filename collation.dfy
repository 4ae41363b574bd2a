/**
 * The collator contract: a collator's fixed identity (name, scheme, id) and
 * the laws every concrete collation must obey for key-segment encoding,
 * sort keys and comparison.
 *
 * The abstract methods of the base class are the function fields of a
 * `Strategy`; `Lawful` states the contracts their documentation gives them.
 */
module Collation {

  type Byte = x: int | 0 <= x < 256

  /** A string-valued value source (one of the two things a collator compares). */
  datatype ValueSource = ValueSource(text: string)

  /** One segment of a composite key, as the segment encoding wrote it. */
  datatype Segment = Segment(bytes: seq<Byte>)

  /** The outcome of decoding sort-key bytes: the recovered string, or the unsupported-operation failure. */
  datatype SortKeyDecode = Decoded(value: string) | Unsupported

  /** The behaviour a concrete collation supplies. */
  datatype Strategy = Strategy(
    recoverable: bool,
    caseSensitive: bool,
    appendSegment: string -> Segment,
    decodeSegment: Segment -> string,
    sortKey: string -> seq<Byte>,
    decodeSortKey: seq<Byte> -> SortKeyDecode,
    compareValues: (ValueSource, ValueSource) -> int,
    compareStrings: (string, string) -> int)

  function Sign(x: int): (r: int)
  {
    if x < 0 then -1 else if x > 0 then 1 else 0
  }

  /** Unsigned byte-lexicographic comparison, as -1, 0 or 1. */
  function LexCompare(a: seq<Byte>, b: seq<Byte>): (r: int)
  {
    if a == [] then (if b == [] then 0 else -1)
    else if b == [] then 1
    else if a[0] < b[0] then -1
    else if a[0] > b[0] then 1
    else LexCompare(a[1..], b[1..])
  }

  /** A sort key ends in a zero byte, and only its last byte is zero. */
  predicate SortKeyShape(k: seq<Byte>)
  {
    |k| > 0 && k[|k| - 1] == 0 && forall i :: 0 <= i < |k| - 1 ==> k[i] != 0
  }

  /** The contracts of the abstract methods. */
  ghost predicate Lawful(s: Strategy)
  {
    // the sort key of every string has the terminator shape
    (forall v :: SortKeyShape(s.sortKey(v))) &&
    // a recoverable collator decodes what it appended
    (s.recoverable ==> forall v :: s.decodeSegment(s.appendSegment(v)) == v) &&
    // a collator that cannot recover strings never decodes sort keys
    (!s.recoverable ==> forall k :: s.decodeSortKey(k) == Unsupported) &&
    // decoding a string's sort key recovers that string or reports the operation unsupported
    (forall v :: s.decodeSortKey(s.sortKey(v)) == Decoded(v) || s.decodeSortKey(s.sortKey(v)) == Unsupported) &&
    // comparing strings agrees with comparing their sort keys byte by byte
    (forall a, b :: Sign(s.compareStrings(a, b)) == LexCompare(s.sortKey(a), s.sortKey(b))) &&
    // both comparison overloads induce the same order
    (forall u, v :: Sign(s.compareValues(u, v)) == Sign(s.compareStrings(u.text, v.text)))
  }

  /** A composite key under construction: its segments, and the position of the next one to decode. */
  class Key {
    var segments: seq<Segment>
    var index: nat

    constructor ()
      ensures segments == [] && index == 0
    {
      segments := [];
      index := 0;
    }
  }

  class AkCollator {
    const collatorName: string
    const collatorScheme: string
    const collationId: int
    const strategy: Strategy

    ghost predicate Valid()
    {
      Lawful(strategy)
    }

    /** A collator's identity is fixed for its lifetime: these three fields are constants. */
    constructor (collatorName: string, collatorScheme: string, collationId: int, strategy: Strategy)
      requires Lawful(strategy)
      ensures this.collatorName == collatorName && this.collatorScheme == collatorScheme
      ensures this.collationId == collationId && this.strategy == strategy
      ensures Valid()
    {
      this.collatorName := collatorName;
      this.collatorScheme := collatorScheme;
      this.collationId := collationId;
      this.strategy := strategy;
    }

    /** A recoverable collator decodes what it appends; any other reports sort-key decoding unsupported. */
    function IsRecoverable(): (r: bool)
      ensures Valid() && r ==> forall v :: strategy.decodeSegment(strategy.appendSegment(v)) == v
      ensures Valid() && !r ==> forall k :: strategy.decodeSortKey(k) == Unsupported
    {
      strategy.recoverable
    }

    /** Appends the encoding of a string to a key as its next segment. */
    method Append(key: Key, value: string)
      modifies key
      ensures key.segments == old(key.segments) + [strategy.appendSegment(value)]
      ensures key.index == old(key.index)
    {
      key.segments := key.segments + [strategy.appendSegment(value)];
    }

    /** Decodes the key's current segment and moves past it. */
    method Decode(key: Key) returns (value: string)
      requires key.index < |key.segments|
      modifies key
      ensures value == strategy.decodeSegment(old(key.segments[key.index]))
      ensures key.segments == old(key.segments) && key.index == old(key.index) + 1
    {
      value := strategy.decodeSegment(key.segments[key.index]);
      key.index := key.index + 1;
    }

    /** For a recoverable collator, decoding a fresh key that holds one appended string gives that string back. */
    method AppendThenDecode(value: string) returns (decoded: string)
      requires Valid() && IsRecoverable()
      ensures decoded == value
    {
      var key := new Key();
      Append(key, value);
      decoded := Decode(key);
    }

    /** The sort key bytes of a string: the last byte, and only the last byte, is zero. */
    function EncodeSortKeyBytes(value: string): (bytes: seq<Byte>)
      requires Valid()
      ensures |bytes| > 0 && bytes[|bytes| - 1] == 0
      ensures forall i :: 0 <= i < |bytes| - 1 ==> bytes[i] != 0
    {
      strategy.sortKey(value)
    }

    /** Recovers a string from length sort-key bytes starting at index, or reports the operation unsupported. */
    function DecodeSortKeyBytes(bytes: seq<Byte>, index: nat, length: nat): (r: SortKeyDecode)
      requires Valid()
      requires index + length <= |bytes|
      ensures !IsRecoverable() ==> r == Unsupported
      ensures r.Decoded? ==> IsRecoverable()
      ensures forall v :: bytes[index..index + length] == strategy.sortKey(v) ==> r == Decoded(v) || r == Unsupported
    {
      strategy.decodeSortKey(bytes[index..index + length])
    }

    /** Compares two value sources in the same order as the strings they hold. */
    function CompareValues(value1: ValueSource, value2: ValueSource): (r: int)
      ensures Valid() ==> Sign(r) == Sign(CompareStrings(value1.text, value2.text))
    {
      strategy.compareValues(value1, value2)
    }

    /** Compares two strings in the byte order of their sort keys. */
    function CompareStrings(string1: string, string2: string): (r: int)
      ensures Valid() ==> Sign(r) == LexCompare(strategy.sortKey(string1), strategy.sortKey(string2))
    {
      strategy.compareStrings(string1, string2)
    }

    /** The rendering "name(scheme)". */
    function ToString(): (s: string)
      ensures |s| == |collatorName| + |collatorScheme| + 2
      ensures s[..|collatorName|] == collatorName && s[|collatorName|] == '('
      ensures s[|collatorName| + 1..|s| - 1] == collatorScheme && s[|s| - 1] == ')'
    {
      collatorName + "(" + collatorScheme + ")"
    }
  }

  // ---------------------------------------------------------------------------
  // Properties.
  // ---------------------------------------------------------------------------

  /** Byte-lexicographic comparison is antisymmetric. */
  lemma {:induction false} LexCompareAntisymmetric(a: seq<Byte>, b: seq<Byte>)
    ensures LexCompare(a, b) == -LexCompare(b, a)
  {
    if a != [] && b != [] && a[0] == b[0] {
      LexCompareAntisymmetric(a[1..], b[1..]);
    }
  }

  /** Byte-lexicographic comparison is zero exactly on equal sequences. */
  lemma {:induction false} LexCompareZero(a: seq<Byte>, b: seq<Byte>)
    ensures LexCompare(a, b) == 0 <==> a == b
  {
    if a != [] && b != [] && a[0] == b[0] {
      LexCompareZero(a[1..], b[1..]);
      assert a == [a[0]] + a[1..] && b == [b[0]] + b[1..];
    }
  }

  /** Byte-lexicographic comparison is transitive. */
  lemma {:induction false} LexCompareTransitive(a: seq<Byte>, b: seq<Byte>, c: seq<Byte>)
    requires LexCompare(a, b) < 0 && LexCompare(b, c) < 0
    ensures LexCompare(a, c) < 0
  {
    if a != [] && b != [] && c != [] && a[0] == b[0] && b[0] == c[0] {
      LexCompareTransitive(a[1..], b[1..], c[1..]);
    }
  }

  /** Both comparison overloads are antisymmetric: swapping the operands flips the sign. */
  lemma CompareAntisymmetric(c: AkCollator, a: string, b: string, u: ValueSource, v: ValueSource)
    requires c.Valid()
    ensures Sign(c.CompareStrings(a, b)) == -Sign(c.CompareStrings(b, a))
    ensures Sign(c.CompareValues(u, v)) == -Sign(c.CompareValues(v, u))
  {
    LexCompareAntisymmetric(c.strategy.sortKey(a), c.strategy.sortKey(b));
    LexCompareAntisymmetric(c.strategy.sortKey(u.text), c.strategy.sortKey(v.text));
  }

  /** The string comparison is transitive: it orders strings as their sort keys are ordered. */
  lemma CompareTransitive(col: AkCollator, a: string, b: string, c: string)
    requires col.Valid()
    requires col.CompareStrings(a, b) < 0 && col.CompareStrings(b, c) < 0
    ensures col.CompareStrings(a, c) < 0
  {
    LexCompareTransitive(col.strategy.sortKey(a), col.strategy.sortKey(b), col.strategy.sortKey(c));
  }

  /** The value-source comparison is transitive as well. */
  lemma CompareValuesTransitive(col: AkCollator, u: ValueSource, v: ValueSource, w: ValueSource)
    requires col.Valid()
    requires col.CompareValues(u, v) < 0 && col.CompareValues(v, w) < 0
    ensures col.CompareValues(u, w) < 0
  {
    LexCompareTransitive(col.strategy.sortKey(u.text), col.strategy.sortKey(v.text), col.strategy.sortKey(w.text));
  }

  /** Two strings compare equal exactly when their sort keys are the same bytes. */
  lemma CompareZeroIffSameSortKey(c: AkCollator, a: string, b: string)
    requires c.Valid()
    ensures c.CompareStrings(a, b) == 0 <==> c.EncodeSortKeyBytes(a) == c.EncodeSortKeyBytes(b)
  {
    LexCompareZero(c.strategy.sortKey(a), c.strategy.sortKey(b));
  }

  /** The zero terminator makes sort keys prefix-free: a sort key that begins another is that key. */
  lemma SortKeysPrefixFree(c: AkCollator, a: string, b: string)
    requires c.Valid()
    requires |c.EncodeSortKeyBytes(a)| <= |c.EncodeSortKeyBytes(b)|
    requires c.EncodeSortKeyBytes(b)[..|c.EncodeSortKeyBytes(a)|] == c.EncodeSortKeyBytes(a)
    ensures c.EncodeSortKeyBytes(a) == c.EncodeSortKeyBytes(b)
  {
  }

  /** Decoding the whole sort key of a string gives that string back, or reports the operation unsupported. */
  lemma SortKeyRoundTrip(c: AkCollator, v: string)
    requires c.Valid()
    ensures var k := c.EncodeSortKeyBytes(v);
      c.DecodeSortKeyBytes(k, 0, |k|) == Decoded(v) || c.DecodeSortKeyBytes(k, 0, |k|) == Unsupported
  {
    var k := c.EncodeSortKeyBytes(v);
    assert k[0..|k|] == c.strategy.sortKey(v);
  }

  /** Two different strings that share a sort key make decoding that key unsupported. */
  lemma SharedSortKeyUndecodable(c: AkCollator, a: string, b: string)
    requires c.Valid() && a != b
    requires c.EncodeSortKeyBytes(a) == c.EncodeSortKeyBytes(b)
    ensures var k := c.EncodeSortKeyBytes(a); c.DecodeSortKeyBytes(k, 0, |k|) == Unsupported
  {
    var k := c.EncodeSortKeyBytes(a);
    assert k[0..|k|] == c.strategy.sortKey(a) == c.strategy.sortKey(b);
  }

  /** When the name has no '(' the rendering determines both the name and the scheme. */
  lemma ToStringDeterminesIdentity(c: AkCollator, d: AkCollator)
    requires '(' !in c.collatorName && '(' !in d.collatorName
    requires c.ToString() == d.ToString()
    ensures c.collatorName == d.collatorName && c.collatorScheme == d.collatorScheme
  {
    var s, m, n := c.ToString(), c.collatorName, d.collatorName;
    ParenAfterName(m, c.collatorScheme + ")", s);
    ParenAfterName(n, d.collatorScheme + ")", s);
    assert |m| == |n|;
    assert m == s[..|m|] == n;
    assert c.collatorScheme == s[|m| + 1..|s| - 1] == d.collatorScheme;
  }

  /** In name + "(" + rest, the first '(' is the one right after a name that has none. */
  lemma ParenAfterName(name: string, rest: string, s: string)
    requires '(' !in name && s == name + "(" + rest
    ensures |s| > |name| && s[|name|] == '('
    ensures forall i :: 0 <= i < |name| ==> s[i] != '('
  {
  }
}
