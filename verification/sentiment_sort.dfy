/**
 * The sort step of the sentiment table: `result.sort(comparator)` on the chosen
 * column, ascending or descending. `Array.prototype.sort` is stable (ECMAScript
 * 2019), so for this consistent comparator its result is the unique stable sorted
 * permutation; the model computes it by insertion sort, in place on an array.
 */
module SentimentSort {
  import opened Seqs
  import opened SentimentCsv

  /** The column a table header click sorts by. */
  datatype SortKey = Ulasan | Rating | Kategori | NamaProduk | Sentiment

  datatype SortOrder = Asc | Desc

  /** A column value as the comparator sees it. */
  datatype Key = Text(s: string) | Number(n: int)

  /** `row[sortKey]`. */
  function KeyOf(row: Row, key: SortKey): (k: Key)
    ensures k.Number? <==> key == Rating
  {
    match key
    case Ulasan => Text(row.ulasan)
    case Rating => Number(row.rating)
    case Kategori => Text(row.kategori)
    case NamaProduk => Text(row.namaProduk)
    case Sentiment => Text(row.sentiment)
  }

  /** JavaScript `<` on strings: the first differing character decides; a proper prefix is smaller. */
  predicate StringLess(a: string, b: string)
    decreases |a|
  {
    if a == [] then b != []
    else if b == [] then false
    else if a[0] != b[0] then a[0] < b[0]
    else StringLess(a[1..], b[1..])
  }

  /** JavaScript `<` on two values of one column. */
  predicate KeyLess(a: Key, b: Key) {
    match (a, b)
    case (Text(x), Text(y)) => StringLess(x, y)
    case (Number(x), Number(y)) => x < y
    case _ => false
  }

  /** The comparator passed to `sort`: negative keeps `a` first, positive puts `b` first. */
  function Compare(a: Row, b: Row, key: SortKey, order: SortOrder): int {
    var x, y := KeyOf(a, key), KeyOf(b, key);
    if KeyLess(x, y) then (if order == Asc then -1 else 1)
    else if KeyLess(y, x) then (if order == Asc then 1 else -1)
    else 0
  }

  lemma {:induction false} StringLessIrreflexive(a: string)
    ensures !StringLess(a, a)
    decreases |a|
  {
    if a != [] {
      StringLessIrreflexive(a[1..]);
    }
  }

  lemma {:induction false} StringLessTotal(a: string, b: string)
    ensures a == b || StringLess(a, b) || StringLess(b, a)
    decreases |a|
  {
    if a != [] && b != [] && a[0] == b[0] {
      StringLessTotal(a[1..], b[1..]);
      if a[1..] == b[1..] {
        assert a == [a[0]] + a[1..] && b == [b[0]] + b[1..];
      }
    }
  }

  lemma {:induction false} StringLessAsymmetric(a: string, b: string)
    requires StringLess(a, b)
    ensures !StringLess(b, a)
    decreases |a|
  {
    if a != [] && a[0] == b[0] {
      StringLessAsymmetric(a[1..], b[1..]);
    }
  }

  lemma {:induction false} StringLessTransitive(a: string, b: string, c: string)
    requires StringLess(a, b) && StringLess(b, c)
    ensures StringLess(a, c)
    decreases |a|
  {
    if a != [] && a[0] == b[0] && b[0] == c[0] {
      StringLessTransitive(a[1..], b[1..], c[1..]);
    }
  }

  /** The comparator reports "equal" exactly for equal column values. */
  lemma CompareZero(a: Row, b: Row, key: SortKey, order: SortOrder)
    ensures Compare(a, b, key, order) == 0 <==> KeyOf(a, key) == KeyOf(b, key)
  {
    var x, y := KeyOf(a, key), KeyOf(b, key);
    if x.Text? {
      StringLessIrreflexive(x.s);
      StringLessTotal(x.s, y.s);
    }
  }

  /** The comparator is antisymmetric. */
  lemma CompareAntisymmetric(a: Row, b: Row, key: SortKey, order: SortOrder)
    ensures Compare(a, b, key, order) > 0 <==> Compare(b, a, key, order) < 0
  {
    var x, y := KeyOf(a, key), KeyOf(b, key);
    if x.Text? {
      if StringLess(x.s, y.s) {
        StringLessAsymmetric(x.s, y.s);
      }
      if StringLess(y.s, x.s) {
        StringLessAsymmetric(y.s, x.s);
      }
    }
  }

  /** "Not after" is transitive. */
  lemma CompareTransitive(a: Row, b: Row, c: Row, key: SortKey, order: SortOrder)
    requires Compare(a, b, key, order) <= 0 && Compare(b, c, key, order) <= 0
    ensures Compare(a, c, key, order) <= 0
  {
    var x, y, z := KeyOf(a, key), KeyOf(b, key), KeyOf(c, key);
    if x.Text? {
      StringLessTotal(x.s, y.s);
      StringLessTotal(y.s, z.s);
      StringLessTotal(x.s, z.s);
      if StringLess(x.s, y.s) && StringLess(y.s, z.s) {
        StringLessTransitive(x.s, y.s, z.s);
        StringLessAsymmetric(x.s, z.s);
      }
      if StringLess(y.s, x.s) && StringLess(z.s, y.s) {
        StringLessTransitive(z.s, y.s, x.s);
        StringLessAsymmetric(z.s, x.s);
      }
      if StringLess(x.s, y.s) {
        StringLessAsymmetric(x.s, y.s);
      }
      if StringLess(y.s, z.s) {
        StringLessAsymmetric(y.s, z.s);
      }
      if StringLess(y.s, x.s) {
        StringLessAsymmetric(y.s, x.s);
      }
      if StringLess(z.s, y.s) {
        StringLessAsymmetric(z.s, y.s);
      }
      StringLessIrreflexive(x.s);
      StringLessIrreflexive(y.s);
    }
  }

  /** No element is placed after one it compares greater than. */
  predicate Ordered(s: seq<Row>, key: SortKey, order: SortOrder) {
    forall i, j :: 0 <= i < j < |s| ==> Compare(s[i], s[j], key, order) <= 0
  }

  /**
   * Inserts `x` into `sorted` after every element that does not compare greater
   * than it, scanning from the right as the shifting loop does.
   */
  function Insert(sorted: seq<Row>, x: Row, key: SortKey, order: SortOrder): seq<Row>
    decreases |sorted|
  {
    if sorted == [] || Compare(sorted[|sorted| - 1], x, key, order) <= 0 then sorted + [x]
    else Insert(sorted[..|sorted| - 1], x, key, order) + [sorted[|sorted| - 1]]
  }

  /** Stable insertion sort: each element in turn is inserted into the sorted prefix. */
  function SortRows(s: seq<Row>, key: SortKey, order: SortOrder): seq<Row>
    decreases |s|
  {
    if s == [] then [] else Insert(SortRows(s[..|s| - 1], key, order), s[|s| - 1], key, order)
  }

  /** The gap for `x` in `t`: after the last element not greater than `x`. */
  lemma {:induction false} GapFor(t: seq<Row>, x: Row, key: SortKey, order: SortOrder)
    returns (j: nat)
    ensures j <= |t|
    ensures forall k :: j <= k < |t| ==> Compare(t[k], x, key, order) > 0
    ensures j > 0 ==> Compare(t[j - 1], x, key, order) <= 0
    decreases |t|
  {
    if t == [] || Compare(t[|t| - 1], x, key, order) <= 0 {
      j := |t|;
    } else {
      j := GapFor(t[..|t| - 1], x, key, order);
    }
  }

  /** Where Insert places `x`: after a prefix, before a suffix of elements greater than `x`. */
  lemma InsertShape(t: seq<Row>, x: Row, key: SortKey, order: SortOrder)
    returns (j: nat)
    ensures j <= |t| && Insert(t, x, key, order) == t[..j] + [x] + t[j..]
    ensures forall k :: j <= k < |t| ==> Compare(t[k], x, key, order) > 0
    ensures j > 0 ==> Compare(t[j - 1], x, key, order) <= 0
  {
    j := GapFor(t, x, key, order);
    InsertAtGap(t, x, j, key, order);
  }

  /** Insertion adds exactly one element. */
  lemma InsertMultiset(t: seq<Row>, x: Row, key: SortKey, order: SortOrder)
    ensures multiset(Insert(t, x, key, order)) == multiset(t) + multiset{x}
  {
    var j := InsertShape(t, x, key, order);
    SpliceMultiset(t, x, j);
  }

  lemma SpliceMultiset<T>(t: seq<T>, x: T, j: nat)
    requires j <= |t|
    ensures multiset(t[..j] + [x] + t[j..]) == multiset(t) + multiset{x}
  {
    assert t == t[..j] + t[j..];
  }

  /** Sorting is a permutation of its input. */
  lemma {:induction false} SortRowsPermutation(s: seq<Row>, key: SortKey, order: SortOrder)
    ensures multiset(SortRows(s, key, order)) == multiset(s)
    decreases |s|
  {
    if s != [] {
      var init, last := s[..|s| - 1], s[|s| - 1];
      SortRowsPermutation(init, key, order);
      InsertMultiset(SortRows(init, key, order), last, key, order);
      assert s == init + [last];
    }
  }

  /** Placing `x` between a prefix not above it and a suffix above it keeps the order. */
  lemma OrderedAround(t: seq<Row>, x: Row, j: nat, key: SortKey, order: SortOrder)
    requires Ordered(t, key, order) && j <= |t|
    requires forall k :: j <= k < |t| ==> Compare(t[k], x, key, order) > 0
    requires j > 0 ==> Compare(t[j - 1], x, key, order) <= 0
    ensures Ordered(t[..j] + [x] + t[j..], key, order)
  {
    forall a | 0 <= a < j ensures Compare(t[a], x, key, order) <= 0 {
      if a < j - 1 {
        CompareTransitive(t[a], t[j - 1], x, key, order);
      }
    }
    forall b | j <= b < |t| ensures Compare(x, t[b], key, order) <= 0 {
      CompareAntisymmetric(t[b], x, key, order);
    }
    SpliceSorted(t, x, j, (p, q) => Compare(p, q, key, order) <= 0);
  }

  /** An element not below its prefix and not above its suffix keeps a sorted sequence sorted. */
  lemma SpliceSorted<T>(t: seq<T>, x: T, j: nat, le: (T, T) -> bool)
    requires j <= |t|
    requires forall a, b :: 0 <= a < b < |t| ==> le(t[a], t[b])
    requires forall a :: 0 <= a < j ==> le(t[a], x)
    requires forall b :: j <= b < |t| ==> le(x, t[b])
    ensures var r := t[..j] + [x] + t[j..];
      forall a, b :: 0 <= a < b < |r| ==> le(r[a], r[b])
  {
    var r := t[..j] + [x] + t[j..];
    assert forall k :: 0 <= k < j ==> r[k] == t[k];
    assert forall k :: j < k < |r| ==> r[k] == t[k - 1];
  }

  /** Inserting into an ordered sequence keeps it ordered. */
  lemma InsertOrdered(t: seq<Row>, x: Row, key: SortKey, order: SortOrder)
    requires Ordered(t, key, order)
    ensures Ordered(Insert(t, x, key, order), key, order)
  {
    var j := InsertShape(t, x, key, order);
    OrderedAround(t, x, j, key, order);
  }

  /** The sorted rows are ordered by the comparator. */
  lemma {:induction false} SortRowsOrdered(s: seq<Row>, key: SortKey, order: SortOrder)
    ensures Ordered(SortRows(s, key, order), key, order)
    decreases |s|
  {
    if s != [] {
      SortRowsOrdered(s[..|s| - 1], key, order);
      InsertOrdered(SortRows(s[..|s| - 1], key, order), s[|s| - 1], key, order);
    }
  }

  /** The rows whose `key` column holds `v`, in their order. */
  function WithKey(s: seq<Row>, key: SortKey, v: Key): seq<Row> {
    Filter(s, HasKey(key, v))
  }

  function HasKey(key: SortKey, v: Key): Row -> bool {
    row => KeyOf(row, key) == v
  }

  /** Elements that all compare greater than `x` hold none of `x`'s key. */
  lemma {:induction false} WithKeyOfGreater(b: seq<Row>, x: Row, key: SortKey, order: SortOrder)
    requires forall k :: 0 <= k < |b| ==> Compare(b[k], x, key, order) > 0
    ensures WithKey(b, key, KeyOf(x, key)) == []
    decreases |b|
  {
    if b != [] {
      CompareZero(b[0], x, key, order);
      WithKeyOfGreater(b[1..], x, key, order);
    }
  }

  /** Insertion appends `x` to the rows sharing its key and leaves every other key's rows alone. */
  lemma WithKeyAround(a: seq<Row>, x: Row, b: seq<Row>, key: SortKey, v: Key)
    ensures WithKey(a + [x] + b, key, v) == WithKey(a, key, v) + WithKey([x], key, v) + WithKey(b, key, v)
    ensures WithKey(a + b, key, v) == WithKey(a, key, v) + WithKey(b, key, v)
  {
    FilterAppend(a + [x], b, HasKey(key, v));
    FilterAppend(a, [x], HasKey(key, v));
    FilterAppend(a, b, HasKey(key, v));
  }

  /** The rows of `Insert(t, x)` with key `v`, from the position Insert chooses. */
  lemma InsertWithKeySplit(t: seq<Row>, x: Row, key: SortKey, order: SortOrder, v: Key)
    returns (a: seq<Row>, b: seq<Row>)
    ensures t == a + b
    ensures WithKey(Insert(t, x, key, order), key, v) == WithKey(a, key, v) + WithKey([x], key, v) + WithKey(b, key, v)
    ensures forall k :: 0 <= k < |b| ==> Compare(b[k], x, key, order) > 0
  {
    var j := InsertShape(t, x, key, order);
    a, b := t[..j], t[j..];
    assert t == a + b;
    WithKeyAround(a, x, b, key, v);
  }

  lemma InsertWithKey(t: seq<Row>, x: Row, key: SortKey, order: SortOrder, v: Key)
    ensures WithKey(Insert(t, x, key, order), key, v) == WithKey(t, key, v) + WithKey([x], key, v)
  {
    var a, b := InsertWithKeySplit(t, x, key, order, v);
    FilterAppend(a, b, HasKey(key, v));
    if KeyOf(x, key) == v {
      WithKeyOfGreater(b, x, key, order);
    } else {
      WithKeyOfOther(x, key, v);
    }
    SwapEmpty(WithKey(a, key, v), WithKey([x], key, v), WithKey(b, key, v));
  }

  lemma WithKeyOfOther(x: Row, key: SortKey, v: Key)
    requires KeyOf(x, key) != v
    ensures WithKey([x], key, v) == []
  {
    assert [x][1..] == [];
  }

  /** Two neighbours commute when one of them is empty. */
  lemma SwapEmpty<T>(p: seq<T>, m: seq<T>, q: seq<T>)
    requires m == [] || q == []
    ensures p + m + q == p + q + m
  {
    if m == [] {
      assert p + m == p && q + m == q;
    } else {
      assert p + m + q == p + m && p + q == p;
    }
  }

  /** Stability: for every value of the sort column, its rows keep their input order. */
  lemma {:induction false} SortRowsStable(s: seq<Row>, key: SortKey, order: SortOrder, v: Key)
    ensures WithKey(SortRows(s, key, order), key, v) == WithKey(s, key, v)
    decreases |s|
  {
    if s != [] {
      var init, last := s[..|s| - 1], s[|s| - 1];
      SortRowsStable(init, key, order, v);
      InsertWithKey(SortRows(init, key, order), last, key, order, v);
      assert s == init + [last];
      FilterAppend(init, [last], HasKey(key, v));
    }
  }

  /** Insert places `x` right after the last element that does not compare greater than it. */
  lemma {:induction false} InsertAtGap(t: seq<Row>, x: Row, j: nat, key: SortKey, order: SortOrder)
    requires j <= |t|
    requires forall k :: j <= k < |t| ==> Compare(t[k], x, key, order) > 0
    requires j > 0 ==> Compare(t[j - 1], x, key, order) <= 0
    ensures Insert(t, x, key, order) == t[..j] + [x] + t[j..]
    decreases |t|
  {
    if j == |t| {
      assert t[..j] == t;
    } else {
      var init := t[..|t| - 1];
      InsertAtGap(init, x, j, key, order);
      assert init[..j] == t[..j];
      assert init[j..] + [t[|t| - 1]] == t[j..];
    }
  }

  /**
   * The shifting scan: elements of `a[..i]` that satisfy `above` (compare greater
   * than the element being inserted) move one slot right, from the right end of
   * the prefix down to the first that does not, leaving a gap at the returned index.
   */
  method ShiftGreater(a: array<Row>, i: nat, above: Row -> bool) returns (j: nat)
    requires i < a.Length
    modifies a
    ensures j <= i
    ensures forall k :: 0 <= k < j ==> a[k] == old(a[k])
    ensures forall k :: j < k <= i ==> a[k] == old(a[k - 1])
    ensures forall k :: i < k < a.Length ==> a[k] == old(a[k])
    ensures forall k :: j <= k < i ==> above(old(a[k]))
    ensures j > 0 ==> !above(old(a[j - 1]))
  {
    ghost var orig := a[..];
    j := i;
    while j > 0 && above(a[j - 1])
      invariant 0 <= j <= i && a.Length == |orig|
      invariant forall k :: 0 <= k < j ==> a[k] == orig[k]
      invariant forall k :: j < k <= i ==> a[k] == orig[k - 1]
      invariant forall k :: i < k < a.Length ==> a[k] == orig[k]
      invariant forall k :: j <= k < i ==> above(orig[k])
    {
      a[j] := a[j - 1];
      j := j - 1;
    }
  }

  /**
   * The body of the outer insertion-sort loop: element `i` is taken out, greater
   * elements of the sorted prefix shift one slot right, and it drops into the gap.
   */
  method InsertAt(a: array<Row>, i: nat, key: SortKey, order: SortOrder)
    requires i < a.Length
    modifies a
    ensures a[..i + 1] == Insert(old(a[..i]), old(a[i]), key, order)
    ensures a[i + 1..] == old(a[i + 1..])
  {
    ghost var before := a[..];
    var x := a[i];
    var j := ShiftGreater(a, i, row => Compare(row, x, key, order) > 0);
    a[j] := x;
    InsertAtGap(before[..i], x, j, key, order);
    PlacedAt(a[..], before, i, j, x);
    assert a[i + 1..] == before[i + 1..] by {
      assert forall k :: i < k < a.Length ==> a[k] == before[k];
    }
  }

  /** The array after the shift and the drop, as a sequence: `x` placed at `j` in the prefix. */
  lemma PlacedAt(after: seq<Row>, before: seq<Row>, i: nat, j: nat, x: Row)
    requires |after| == |before| && j <= i < |before|
    requires forall k :: 0 <= k < j ==> after[k] == before[k]
    requires after[j] == x
    requires forall k :: j < k <= i ==> after[k] == before[k - 1]
    ensures after[..i + 1] == before[..i][..j] + [x] + before[..i][j..]
  {
    var sorted := before[..i];
    var placed := sorted[..j] + [x] + sorted[j..];
    forall k | 0 <= k <= i ensures after[k] == placed[k] {
      if k < j {
        assert placed[k] == sorted[k];
      } else if j < k {
        assert placed[k] == sorted[j..][k - j - 1];
      }
    }
  }

  /** `result.sort(comparator)` in place, as an insertion sort. */
  method SortInPlace(a: array<Row>, key: SortKey, order: SortOrder)
    modifies a
    ensures a[..] == SortRows(old(a[..]), key, order)
  {
    ghost var input := a[..];
    var i := 0;
    while i < a.Length
      invariant 0 <= i <= a.Length
      invariant a[..i] == SortRows(input[..i], key, order)
      invariant a[i..] == input[i..]
    {
      ghost var prefix := input[..i + 1];
      assert a[i] == input[i] by {
        assert a[i..][0] == input[i..][0];
      }
      assert prefix[..i] == input[..i];
      InsertAt(a, i, key, order);
      assert a[i + 1..] == input[i + 1..] by {
        assert input[i + 1..] == input[i..][1..];
      }
      i := i + 1;
    }
    assert input[..a.Length] == input;
  }
}
