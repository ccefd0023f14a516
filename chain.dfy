/** The chain of `run`: each candlestick level is summarised from the level
    before it rather than from the ticks. Chaining agrees with direct
    aggregation exactly when every finer bucket lies inside one coarser
    bucket; the ten-minute to fifteen-minute step breaks that. */
module Chain {
  import opened Enumerations
  import opened Period
  import opened Aggregation

  /** No two entries share an open timestamp and no two share a close
      timestamp, so the merge never meets a tie. */
  ghost predicate TieFree(es: seq<Entry>)
  {
    forall i, j :: 0 <= i < j < |es| ==>
      es[i].stick.openTs != es[j].stick.openTs && es[i].stick.closeTs != es[j].stick.closeTs
  }

  /** The timestamps of `s` differ from those of every stick in `es`. */
  ghost predicate Apart(s: Stick, es: seq<Entry>)
  {
    forall i :: 0 <= i < |es| ==> es[i].stick.openTs != s.openTs && es[i].stick.closeTs != s.closeTs
  }

  /** `es` with `s` merged into the stick of entry `j`. */
  function MergeAt(es: seq<Entry>, j: nat, s: Stick): seq<Entry>
    requires j < |es|
  {
    es[j := Entry(es[j].key, Merge(es[j].stick, s))]
  }

  // ---------------------------------------------------------------------------
  // Reordering inserts
  // ---------------------------------------------------------------------------

  /** Two sticks inserted into one bucket in a row act as their merge. */
  lemma InsertTwice(m: StickMap, p: Stamp, a: Stick, b: Stick)
    ensures Insert(Insert(m, p, a), p, b) == Insert(m, p, Merge(a, b))
  {
    if p in m.sticks {
      MergeAssociative(m.sticks[p], a, b);
    }
  }

  /** Inserting into a bucket already present commutes with any other
      insert, provided the two sticks do not tie when they share a bucket. */
  lemma InsertSwap(m: StickMap, p: Stamp, s: Stick, q: Stamp, t: Stick)
    requires p in m.sticks
    requires p == q ==> s.openTs != t.openTs && s.closeTs != t.closeTs
    ensures Insert(Insert(m, p, s), q, t) == Insert(Insert(m, q, t), p, s)
  {
    if p == q {
      var x := m.sticks[p];
      MergeAssociative(x, s, t);
      MergeAssociative(x, t, s);
      MergeCommutes(s, t);
    } else {
      var l := Insert(Insert(m, p, s), q, t);
      var r := Insert(Insert(m, q, t), p, s);
      assert l.keys == r.keys;
      assert l.sticks == r.sticks;
    }
  }

  // ---------------------------------------------------------------------------
  // The items of an updated dict
  // ---------------------------------------------------------------------------

  /** A new bucket shows up as a last item. */
  lemma ItemsAppend(m: StickMap, p: Stamp, s: Stick)
    requires m.Valid() && p !in m.sticks
    ensures Insert(m, p, s).Valid()
    ensures Items(Insert(m, p, s)) == Items(m) + [Entry(p, s)]
  {
    var l := Items(Insert(m, p, s));
    var r := Items(m) + [Entry(p, s)];
    assert |l| == |r|;
    forall i | 0 <= i < |l| ensures l[i] == r[i] {
      if i < |m.keys| {
        assert m.keys[i] != p;
      }
    }
  }

  /** A merge into the bucket at position `j` shows up as a merge into item
      `j`. */
  lemma ItemsMerge(m: StickMap, j: nat, s: Stick)
    requires m.Valid() && j < |m.keys|
    ensures Insert(m, m.keys[j], s).Valid()
    ensures Items(Insert(m, m.keys[j], s)) == MergeAt(Items(m), j, s)
  {
    var l := Items(Insert(m, m.keys[j], s));
    var r := MergeAt(Items(m), j, s);
    assert |l| == |r|;
    forall i | 0 <= i < |l| ensures l[i] == r[i] {
      if i != j {
        assert m.keys[i] != m.keys[j];
      }
    }
  }

  // ---------------------------------------------------------------------------
  // Where the timestamps of a bar come from
  // ---------------------------------------------------------------------------

  /** Item `i` of `es` falls in bucket `p`. */
  ghost predicate InBucket(es: seq<Entry>, d: int, p: Stamp, i: int)
  {
    0 <= i < |es| && DeterminePeriod(es[i].key, d) == Ok(p)
  }

  /** The open timestamp and the close timestamp of every output bar are
      those of input sticks of the same bucket. */
  lemma {:induction false} Provenance(es: seq<Entry>, d: int, p: Stamp)
    requires Aggregate(es, d).Ok? && p in Aggregate(es, d).value.sticks
    ensures exists i :: InBucket(es, d, p, i) && es[i].stick.openTs == Aggregate(es, d).value.sticks[p].openTs
    ensures exists i :: InBucket(es, d, p, i) && es[i].stick.closeTs == Aggregate(es, d).value.sticks[p].closeTs
  {
    var n := |es| - 1;
    var init := es[..n];
    assert es[..n + 1] == es;
    var acc := Aggregate(init, d).value;
    var q := DeterminePeriod(es[n].key, d).value;
    AggregateStep(es, n, d, acc);
    var bar := Aggregate(es, d).value.sticks[p];
    assert forall i :: 0 <= i < n ==> init[i] == es[i];
    if p != q {
      assert bar == acc.sticks[p];
      Provenance(init, d, p);
    } else if p !in acc.sticks {
      assert bar == es[n].stick;
    } else {
      assert bar == Merge(acc.sticks[p], es[n].stick);
      Provenance(init, d, p);
    }
  }

  /** A stick apart from every input stick is apart from every output bar. */
  lemma ApartLevel(es: seq<Entry>, d: int, s: Stick)
    requires Aggregate(es, d).Ok? && Apart(s, es)
    ensures Apart(s, Items(Aggregate(es, d).value))
  {
    var m := Aggregate(es, d).value;
    forall i | 0 <= i < |m.keys|
      ensures m.sticks[m.keys[i]].openTs != s.openTs && m.sticks[m.keys[i]].closeTs != s.closeTs
    {
      Provenance(es, d, m.keys[i]);
    }
  }

  /** Summarising tie-free items gives tie-free items. */
  lemma TieFreeLevel(es: seq<Entry>, d: int)
    requires Aggregate(es, d).Ok? && TieFree(es)
    ensures TieFree(Items(Aggregate(es, d).value))
  {
    var m := Aggregate(es, d).value;
    forall i, j | 0 <= i < j < |m.keys|
      ensures m.sticks[m.keys[i]].openTs != m.sticks[m.keys[j]].openTs
      ensures m.sticks[m.keys[i]].closeTs != m.sticks[m.keys[j]].closeTs
    {
      assert m.keys[i] != m.keys[j];
      Provenance(es, d, m.keys[i]);
      Provenance(es, d, m.keys[j]);
    }
  }

  // ---------------------------------------------------------------------------
  // Chained against direct aggregation
  // ---------------------------------------------------------------------------

  /** Merging a stick into one input item before summarising equals
      inserting it into that item's bucket afterwards, when the stick ties
      with no input stick. */
  lemma {:induction false} AggregateMergeAt(es: seq<Entry>, j: nat, s: Stick, d: int)
    requires j < |es| && Aggregate(es, d).Ok? && DeterminePeriod(es[j].key, d).Ok?
    requires Apart(s, es)
    ensures Aggregate(MergeAt(es, j, s), d) == Ok(Insert(Aggregate(es, d).value, DeterminePeriod(es[j].key, d).value, s))
  {
    var n := |es| - 1;
    var init := es[..n];
    var y := es[n];
    assert es[..n + 1] == es;
    var acc := Aggregate(init, d).value;
    var q := DeterminePeriod(es[j].key, d).value;
    var qy := DeterminePeriod(y.key, d).value;
    AggregateStep(es, n, d, acc);
    var merged := MergeAt(es, j, s);
    assert merged[..n + 1] == merged;
    if j == n {
      assert merged[..n] == init;
      AggregateStep(merged, n, d, acc);
      InsertTwice(acc, q, y.stick, s);
    } else {
      assert merged[..n] == MergeAt(init, j, s);
      assert merged[n] == y;
      assert init[j] == es[j];
      AggregateMergeAt(init, j, s, d);
      AggregateStep(merged, n, d, Insert(acc, q, s));
      AggregateKeys(init, d);
      InsertSwap(acc, q, s, qy, y.stick);
    }
  }

  /** The inductive step of `ChainedEqualsDirect`: one more item keeps
      chained and direct summaries equal. */
  lemma ChainStep(es: seq<Entry>, fine: int, coarse: int)
    requires es != [] && Aligned(fine, coarse) && TieFree(es)
    requires Aggregate(es, fine).Ok? && Aggregate(es, coarse).Ok?
    requires Aggregate(es[..|es| - 1], fine).Ok?
    requires Aggregate(Items(Aggregate(es[..|es| - 1], fine).value), coarse) == Aggregate(es[..|es| - 1], coarse)
    ensures Aggregate(Items(Aggregate(es, fine).value), coarse) == Aggregate(es, coarse)
  {
    var n := |es| - 1;
    var init := es[..n];
    var x := es[n];
    assert es[..n + 1] == es;
    var level := Aggregate(init, fine).value;
    var direct := Aggregate(init, coarse).value;
    var b := DeterminePeriod(x.key, fine).value;
    NestedPeriod(x.key, fine, coarse);
    AggregateStep(es, n, fine, level);
    AggregateStep(es, n, coarse, direct);
    ResolverErrors(b, coarse);
    if b !in level.sticks {
      NewBucketStep(level, b, x.stick, coarse, direct);
    } else {
      var j :| 0 <= j < |level.keys| && level.keys[j] == b;
      assert Apart(x.stick, init);
      ApartLevel(init, fine, x.stick);
      OldBucketStep(level, j, x.stick, coarse, direct);
    }
  }

  /** A stick that opens a new finer bucket lands in the coarser bucket of
      that finer bucket's key. */
  lemma NewBucketStep(level: StickMap, b: Stamp, s: Stick, coarse: int, direct: StickMap)
    requires level.Valid() && b !in level.sticks && DeterminePeriod(b, coarse).Ok?
    requires Aggregate(Items(level), coarse) == Ok(direct)
    ensures Aggregate(Items(Insert(level, b, s)), coarse) == Ok(Insert(direct, DeterminePeriod(b, coarse).value, s))
  {
    var items := Items(Insert(level, b, s));
    ItemsAppend(level, b, s);
    assert items[..|items| - 1] == Items(level);
    AggregateStep(items, |items| - 1, coarse, direct);
    assert items[..|items| - 1 + 1] == items;
  }

  /** A stick merged into an existing finer bucket reaches the coarser
      bucket of that finer bucket's key, provided it ties with no bar. */
  lemma OldBucketStep(level: StickMap, j: nat, s: Stick, coarse: int, direct: StickMap)
    requires level.Valid() && j < |level.keys| && DeterminePeriod(level.keys[j], coarse).Ok?
    requires Aggregate(Items(level), coarse) == Ok(direct)
    requires Apart(s, Items(level))
    ensures Aggregate(Items(Insert(level, level.keys[j], s)), coarse) == Ok(Insert(direct, DeterminePeriod(level.keys[j], coarse).value, s))
  {
    ItemsMerge(level, j, s);
    AggregateMergeAt(Items(level), j, s, coarse);
  }

  /** Summarising the summary of tie-free items at an aligned coarser
      duration gives what summarising the items at that duration gives. */
  lemma {:induction false} ChainedEqualsDirect(es: seq<Entry>, fine: int, coarse: int)
    requires Aligned(fine, coarse) && TieFree(es)
    ensures Aggregate(es, fine).Ok? && Aggregate(es, coarse).Ok?
    ensures Aggregate(Items(Aggregate(es, fine).value), coarse) == Aggregate(es, coarse)
  {
    AggregateErrors(es, fine);
    AggregateErrors(es, coarse);
    if es == [] {
      assert Items(Aggregate(es, fine).value) == [];
    } else {
      var init := es[..|es| - 1];
      assert TieFree(init);
      ChainedEqualsDirect(init, fine, coarse);
      ChainStep(es, fine, coarse);
    }
  }
}
