/** The persistence layer seen from the controllers: one table per entity,
    rows keyed by primary key, read back in insertion order. */
module Tables {
  import opened Results

  /** Primary keys. The source uses Java `long`; no arithmetic is done on them
      beyond handing out a fresh one, so they are modelled unbounded. */
  type Id = int

  /** Rows by primary key, plus the keys in the order the rows were first
      saved, which is the order a `findAll` query returns them in, plus the
      next key the generator hands out. */
  datatype Table<T> = Table(rows: map<Id, T>, order: seq<Id>, next: Id)

  predicate Distinct(ids: seq<Id>) {
    forall i, j :: 0 <= i < j < |ids| ==> ids[i] != ids[j]
  }

  /** The order lists every key exactly once, and every key lies below the
      generator's next value, which is positive. */
  ghost predicate Valid<T>(t: Table<T>) {
    && Distinct(t.order)
    && (forall k :: k in t.rows <==> k in t.order)
    && t.next > 0
    && (forall k :: k in t.rows ==> k < t.next)
  }

  function Get<T>(t: Table<T>, id: Id): Option<T> {
    if id in t.rows then Some(t.rows[id]) else None
  }

  /** A repository `save`: overwrites the row with key `id`, or appends a new one. */
  function Put<T>(t: Table<T>, id: Id, row: T): (r: Table<T>)
    ensures Get(r, id) == Some(row)
    ensures forall k :: k != id ==> Get(r, k) == Get(t, k)
    ensures id in t.rows ==> r.order == t.order && r.next == t.next
    ensures r.next >= t.next && (id !in t.rows || Valid(t) ==> id < r.next)
    ensures Valid(t) ==> Valid(r)
  {
    if id in t.rows then Table(t.rows[id := row], t.order, t.next)
    else Table(t.rows[id := row], t.order + [id], if id < t.next then t.next else id + 1)
  }

  /** `ids` with every occurrence of `id` dropped, the rest in order. */
  function Without(ids: seq<Id>, id: Id): (r: seq<Id>)
    ensures forall k :: k in r <==> k in ids && k != id
    ensures Distinct(ids) ==> Distinct(r)
    decreases |ids|
  {
    if |ids| == 0 then []
    else
      assert ids == [ids[0]] + ids[1..];
      assert Distinct(ids) ==> ids[0] !in ids[1..];
      if ids[0] == id then Without(ids[1..], id)
      else [ids[0]] + Without(ids[1..], id)
  }

  /** A repository `deleteById`. The key generator does not step back. */
  function Remove<T>(t: Table<T>, id: Id): (r: Table<T>)
    ensures Get(r, id) == None
    ensures forall k :: k != id ==> Get(r, k) == Get(t, k)
    ensures r.next == t.next
    ensures Valid(t) ==> Valid(r)
  {
    Table(t.rows - {id}, Without(t.order, id), t.next)
  }

  /** The rows named by `ids`, in that order; ids without a row are skipped. */
  function RowsOf<T>(rows: map<Id, T>, ids: seq<Id>): (r: seq<T>)
    ensures forall k :: k in ids && k in rows ==> rows[k] in r
    ensures |r| <= |ids|
    decreases |ids|
  {
    if |ids| == 0 then []
    else
      assert ids == [ids[0]] + ids[1..];
      var rest := RowsOf(rows, ids[1..]);
      if ids[0] in rows then
        [rows[ids[0]]] + rest
      else rest
  }

  /** A repository `findAll`: every row, in insertion order. */
  function All<T>(t: Table<T>): (r: seq<T>)
    ensures Valid(t) ==> forall k :: k in t.rows ==> t.rows[k] in r
  {
    RowsOf(t.rows, t.order)
  }

  lemma {:induction false} RowsOfStoredUnderKey<T>(rows: map<Id, T>, ids: seq<Id>, key: T -> Id)
    requires forall k :: k in rows ==> key(rows[k]) == k
    ensures forall x :: x in RowsOf(rows, ids) ==> key(x) in rows && rows[key(x)] == x
    decreases |ids|
  {
    if |ids| > 0 {
      RowsOfStoredUnderKey(rows, ids[1..], key);
    }
  }

  /** When every row records its own key, each row `findAll` lists is the row
      stored under that key. */
  lemma AllStoredUnderKey<T>(t: Table<T>, key: T -> Id)
    ensures (forall k :: k in t.rows ==> key(t.rows[k]) == k) ==>
      forall x :: x in All(t) ==> key(x) in t.rows && t.rows[key(x)] == x
  {
    if forall k :: k in t.rows ==> key(t.rows[k]) == k {
      RowsOfStoredUnderKey(t.rows, t.order, key);
    }
  }

  /** The key the persistence layer generates for a new row. Like an
      identity column, the generator only moves forward: every key ever
      stored lies below it, saving raises it past the saved key, and
      deleting leaves it where it is, so no key is handed out twice. */
  function FreshId<T>(t: Table<T>): (r: Id)
    ensures Valid(t) ==> r > 0 && r !in t.rows
    ensures Valid(t) ==> forall k :: k in t.rows ==> k < r
  {
    t.next
  }

  /** A generated key is never generated again: after saving a row under it,
      and after then deleting any row, the next generated key is larger.
      Since `Put` never lowers the generator and `Remove` leaves it as it is
      (their contracts), the same holds after any sequence of saves and
      deletes, not only the one shown here. */
  lemma FreshIdNotReissued<T>(t: Table<T>, row: T, gone: Id)
    requires Valid(t)
    ensures FreshId(Put(t, FreshId(t), row)) > FreshId(t)
    ensures FreshId(Remove(Put(t, FreshId(t), row), gone)) > FreshId(t)
  {
  }

  /** The elements of `xs` that `keep` accepts, in their original order
      (a stream `filter` followed by `collect`). */
  function Filter<T>(xs: seq<T>, keep: T -> bool): (r: seq<T>)
    ensures forall x :: x in r ==> x in xs && keep(x)
    ensures forall x :: x in xs && keep(x) ==> x in r
    ensures |r| <= |xs|
    decreases |xs|
  {
    if |xs| == 0 then []
    else if keep(xs[0]) then [xs[0]] + Filter(xs[1..], keep)
    else Filter(xs[1..], keep)
  }

  /** Filtering keeps relative order: it distributes over concatenation. */
  lemma {:induction false} FilterConcat<T>(a: seq<T>, b: seq<T>, keep: T -> bool)
    ensures Filter(a + b, keep) == Filter(a, keep) + Filter(b, keep)
    decreases |a|
  {
    if |a| == 0 {
      assert a + b == b;
    } else {
      assert (a + b)[1..] == a[1..] + b;
      FilterConcat(a[1..], b, keep);
    }
  }
}
