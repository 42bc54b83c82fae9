/** Queries over one table: a filtered selection of rows and its row count. */
module Tables {
  import opened Sums

  /** 1 for each row of m that satisfies keep, 0 elsewhere. */
  function Indicator<T>(m: map<int, T>, keep: T -> bool): nat -> int
  {
    (i: nat) => if i in m && keep(m[i]) then 1 else 0
  }

  /** SELECT COUNT(*) over the rows of m with identifier below n that satisfy keep. */
  function Count<T>(m: map<int, T>, keep: T -> bool, n: nat): (c: int)
    ensures c >= 0
  {
    SumNonNegative(Indicator(m, keep), n);
    Sum(Indicator(m, keep), n)
  }

  /** The rows of m with identifier below n that satisfy keep, as (identifier,
      record) pairs in increasing identifier order. */
  function Rows<T>(m: map<int, T>, keep: T -> bool, n: nat): (r: seq<(int, T)>)
    ensures forall j :: 0 <= j < |r| ==>
      0 <= r[j].0 < n && r[j].0 in m && m[r[j].0] == r[j].1 && keep(r[j].1)
    ensures forall k :: 0 <= k < n && k in m && keep(m[k]) ==> (k, m[k]) in r
    ensures forall i, j :: 0 <= i < j < |r| ==> r[i].0 < r[j].0
  {
    if n == 0 then []
    else
      var earlier := Rows(m, keep, n - 1);
      if (n - 1) in m && keep(m[n - 1]) then earlier + [(n - 1, m[n - 1])] else earlier
  }

  /** The identifiers below n whose row satisfies keep. */
  function Selected<T>(m: map<int, T>, keep: T -> bool, n: nat): set<int>
  {
    set i | i in m && 0 <= i < n && keep(m[i])
  }

  /** The count is the number of identifiers below n whose row satisfies keep. */
  lemma {:induction false} CountIsCardinality<T>(m: map<int, T>, keep: T -> bool, n: nat)
    ensures Count(m, keep, n) == |Selected(m, keep, n)|
  {
    if n > 0 {
      CountIsCardinality(m, keep, n - 1);
      if (n - 1) in m && keep(m[n - 1]) {
        assert Selected(m, keep, n) == Selected(m, keep, n - 1) + {n - 1};
      } else {
        assert Selected(m, keep, n) == Selected(m, keep, n - 1);
      }
    }
  }

  /** The count is the length of the selection. */
  lemma {:induction false} RowsCount<T>(m: map<int, T>, keep: T -> bool, n: nat)
    ensures |Rows(m, keep, n)| == Count(m, keep, n)
  {
    if n > 0 {
      RowsCount(m, keep, n - 1);
    }
  }
}
