/** The filter that restricts a workspace repository to what an operator may see. */
module WorkspaceFilters {
  import opened GoSlices
  import opened Ids
  import opened Operators
  import opened WorkspaceAccess
  import opened Wrappers

  datatype Filter = Filter(readable: IdList, writable: IdList)

  /** The four lists of an operator, each possibly nil. */
  datatype OperatorLists = OperatorLists(readable: IdList, writable: IdList, maintainable: IdList, owning: IdList)

  /** append(a, b...) on lists that may be nil: nil only when a is nil and b adds nothing. */
  function AppendList(a: IdList, b: IdList): IdList
  {
    if a.None? && Items(b) == [] then None else Some(Items(a) + Items(b))
  }

  function AllWriting(o: OperatorLists): IdList
  {
    AppendList(o.writable, AppendList(o.maintainable, o.owning))
  }

  function AllReading(o: OperatorLists): IdList { AppendList(o.readable, AllWriting(o)) }

  function FromOperator(o: OperatorLists): Filter { Filter(AllReading(o), AllWriting(o)) }

  function MergeList(f: IdList, g: IdList): IdList
  {
    if f.None? && g.None? then None
    else if f.None? then g
    else AppendList(f, g)
  }

  function Merge(f: Filter, g: Filter): Filter
  {
    Filter(MergeList(f.readable, g.readable), MergeList(f.writable, g.writable))
  }

  predicate CanWrite(f: Filter, id: Id) { Items(f.writable) == [] || id in Items(f.writable) }

  predicate CanRead(f: Filter, id: Id) { f.readable.None? || id in Items(f.readable) || CanWrite(f, id) }

  // ----- laws of Merge

  ghost predicate SameList(a: IdList, b: IdList)
  {
    (a.None? <==> b.None?) && forall id :: id in Items(a) <==> id in Items(b)
  }

  /** The filters admit the same: each list is nil in both or in none, with the same members. */
  ghost predicate Same(f: Filter, g: Filter)
  {
    SameList(f.readable, g.readable) && SameList(f.writable, g.writable)
  }

  lemma SameAdmitsSame(f: Filter, g: Filter, id: Id)
    requires Same(f, g)
    ensures CanRead(f, id) <==> CanRead(g, id)
    ensures CanWrite(f, id) <==> CanWrite(g, id)
  {
    if Items(f.writable) != [] {
      assert Items(f.writable)[0] in Items(g.writable);
    }
    if Items(g.writable) != [] {
      assert Items(g.writable)[0] in Items(f.writable);
    }
  }

  /** A merged list is nil only when both are, and else shows the first and then the second. */
  lemma MergeShowsBoth(f: Filter, g: Filter)
    ensures Items(Merge(f, g).readable) == Items(f.readable) + Items(g.readable)
    ensures Items(Merge(f, g).writable) == Items(f.writable) + Items(g.writable)
    ensures Merge(f, g).readable == None <==> f.readable == None && g.readable == None
    ensures Merge(f, g).writable == None <==> f.writable == None && g.writable == None
  {
  }

  /** A list restricts reading when it is not nil and there is something that may be written. */
  predicate RestrictsReading(f: Filter) { f.readable != None && Items(f.writable) != [] }

  /** Whatever does not restrict reading lets read everything, and else what is listed. */
  lemma ReadsIff(f: Filter)
    ensures RestrictsReading(f) <==> exists id :: !CanRead(f, id)
    ensures RestrictsReading(f) ==> forall id :: CanRead(f, id) <==> id in Items(f.readable) || id in Items(f.writable)
  {
    var id := FreshId(Items(f.readable) + Items(f.writable));
    assert id !in Items(f.readable) + Items(f.writable);
    assert RestrictsReading(f) ==> !CanRead(f, id);
  }

  /** A merged filter lets read whatever one of the two lets read, exactly when it restricts reading if
      both of them do, and only then. */
  lemma MergeReadsUnionIff(f: Filter, g: Filter)
    ensures (forall id :: CanRead(Merge(f, g), id) <==> CanRead(f, id) || CanRead(g, id))
       <==> (RestrictsReading(Merge(f, g)) <==> RestrictsReading(f) && RestrictsReading(g))
    ensures RestrictsReading(Merge(f, g)) <==>
      (f.readable != None || g.readable != None) && (Items(f.writable) != [] || Items(g.writable) != [])
  {
    MergeShowsBoth(f, g);
    ReadsIff(f);
    ReadsIff(g);
    ReadsIff(Merge(f, g));
    if RestrictsReading(Merge(f, g)) && !RestrictsReading(f) {
      assert exists id :: !CanRead(Merge(f, g), id);
      assert forall id :: CanRead(f, id);
    }
    if RestrictsReading(Merge(f, g)) && !RestrictsReading(g) {
      assert exists id :: !CanRead(Merge(f, g), id);
      assert forall id :: CanRead(g, id);
    }
  }

  /** Merge is associative, commutative and idempotent, and the empty filter is its identity; and
      what a filter lets write it lets read. */
  lemma MergeLaws(f: Filter, g: Filter, h: Filter)
    ensures Same(Merge(Merge(f, g), h), Merge(f, Merge(g, h)))
    ensures Same(Merge(f, g), Merge(g, f))
    ensures Same(Merge(f, f), f)
    ensures forall id :: CanWrite(f, id) ==> CanRead(f, id)
    ensures Same(Merge(Filter(None, None), f), f) && Same(Merge(f, Filter(None, None)), f)
  {
    forall a: IdList, b: IdList
      ensures MergeList(a, b).None? <==> a.None? && b.None?
      ensures forall id :: id in Items(MergeList(a, b)) <==> id in Items(a) || id in Items(b)
    {
    }
  }

  lemma {:induction false} FreshId(ids: seq<Id>) returns (id: Id)
    ensures forall x <- ids :: x < id
  {
    if ids == [] {
      id := 0;
    } else {
      var rest := FreshId(ids[1..]);
      id := if rest <= ids[0] then ids[0] + 1 else rest;
      assert ids == [ids[0]] + ids[1..];
    }
  }

  /** A merged filter lets write whatever one of the two lets write, exactly when both or neither
      of them restrict writing. */
  lemma MergeIsUnionIff(f: Filter, g: Filter)
    ensures (forall id :: CanWrite(Merge(f, g), id) <==> CanWrite(f, id) || CanWrite(g, id))
       <==> (Items(f.writable) == [] <==> Items(g.writable) == [])
  {
    var id := FreshId(Items(f.writable) + Items(g.writable));
    assert id !in Items(f.writable) + Items(g.writable);
    if Items(f.writable) == [] && Items(g.writable) != [] {
      assert !CanWrite(Merge(f, g), id) && CanWrite(f, id);
    }
    if Items(f.writable) != [] && Items(g.writable) == [] {
      assert !CanWrite(Merge(f, g), id) && CanWrite(g, id);
    }
  }

  // ----- the filter of an operator against the operator's own answers

  /** The filter lists what the operator lists, the stronger roles last; it is nil for nothing at all. */
  lemma FilterShowsOperator(o: OperatorLists)
    ensures Items(FromOperator(o).writable) == Items(o.writable) + Items(o.maintainable) + Items(o.owning)
    ensures Items(FromOperator(o).readable) == Items(o.readable) + Items(o.writable) + Items(o.maintainable) + Items(o.owning)
    ensures FromOperator(o).writable == None <==>
      o.writable == None && Items(o.maintainable) == [] && Items(o.owning) == []
    ensures FromOperator(o).readable == None <==>
      o.readable == None && Items(o.writable) == [] && Items(o.maintainable) == [] && Items(o.owning) == []
  {
  }

  /** Writing through the filter means what the operator says, for every workspace, exactly when
      the operator has some writable workspace; and then so does reading, and only then. */
  lemma FilterAgreesIff(o: OperatorLists)
    ensures var writing := Items(o.writable) + Items(o.maintainable) + Items(o.owning);
      && ((forall ws :: CanWrite(FromOperator(o), ws) <==> ws in writing) <==> writing != [])
      && ((forall ws :: CanRead(FromOperator(o), ws) <==> ws in Items(o.readable) + writing) <==> writing != [])
  {
    FilterShowsOperator(o);
    assert Items(AllWriting(o)) == Items(o.writable) + Items(o.maintainable) + Items(o.owning);
    assert Items(AllReading(o)) == Items(o.readable) + (Items(o.writable) + Items(o.maintainable) + Items(o.owning));
    var id := FreshId(Items(AllReading(o)));
    var f := FromOperator(o);
    if Items(AllWriting(o)) == [] {
      assert CanWrite(f, id) && CanRead(f, id) && id !in Items(AllReading(o));
    } else {
      forall ws ensures CanRead(f, ws) <==> ws in Items(AllReading(o)) {
      }
    }
  }

  // ----- merging twice on one array

  predicate Agree(xs: seq<Id>, ys: seq<Id>) { forall i :: 0 <= i < |xs| && i < |ys| ==> xs[i] == ys[i] }

  /** Two merges that append to the same list: the first result still shows its own contents
      after the second exactly when one of the two did not fit into the spare capacity, or both
      appended the same values where they overlap. */
  method MergeTwice(f: Slice<Id>, g: seq<Id>, h: seq<Id>) returns (first: Slice<Id>, second: Slice<Id>)
    requires f.Ok()
    modifies f.buf
    ensures first.Ok() && second.Ok() && second.View() == old(f.View()) + h
    ensures first.View() == old(f.View()) + g <==>
      f.len + |g| > f.buf.Length || f.len + |h| > f.buf.Length || Agree(g, h)
  {
    first := Append(f, g);
    ghost var cells := f.buf[..];
    second := Append(f, h);
    if f.len + |g| <= f.buf.Length && f.len + |h| <= f.buf.Length {
      var n := if |g| <= |h| then |g| else |h|;
      forall i | 0 <= i < |g|
        ensures first.View()[f.len + i] == if i < |h| then h[i] else g[i]
      {
        if i < |h| {
          assert second.View()[f.len + i] == h[i];
        } else {
          assert f.buf[f.len + |h|..][i - |h|] == cells[f.len + |h|..][i - |h|];
          assert cells[..f.len + |g|][f.len + i] == g[i];
        }
      }
      assert first.View()[..f.len] == second.View()[..f.len] == old(f.View());
      if Agree(g, h) {
        assert first.View() == old(f.View()) + g;
      } else {
        var i :| 0 <= i < |g| && i < |h| && g[i] != h[i];
        assert first.View()[f.len + i] != (old(f.View()) + g)[f.len + i];
      }
    }
  }
}
