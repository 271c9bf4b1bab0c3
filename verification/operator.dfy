/** The operator of a request holds one list of workspaces per role.  The lists that it hands
    out are built by nested appends into the spare capacity of its own lists, so they share
    memory with each other. */
module Operators {
  import opened Ids
  import opened GoSlices

  type IdSlice = Slice<Id>

  class Operator {
    var readable: IdSlice
    var writable: IdSlice
    var maintainable: IdSlice
    var owning: IdSlice

    ghost var issued: seq<IdSlice>  // every list handed out so far ...
    ghost var shown: seq<seq<Id>>   // ... and what it showed then

    ghost predicate Separate()
      reads this
    {
      && readable.Ok() && writable.Ok() && maintainable.Ok() && owning.Ok()
      && readable.buf != writable.buf && readable.buf != maintainable.buf && readable.buf != owning.buf
      && writable.buf != maintainable.buf && writable.buf != owning.buf && maintainable.buf != owning.buf
    }

    function Owning(): seq<Id>
      requires owning.Ok()
      reads this, owning.buf
    {
      owning.View()
    }

    function Maintaining(): seq<Id>
      requires owning.Ok() && maintainable.Ok()
      reads this, owning.buf, maintainable.buf
    {
      maintainable.View() + Owning()
    }

    function Writing(): seq<Id>
      requires owning.Ok() && maintainable.Ok() && writable.Ok()
      reads this, owning.buf, maintainable.buf, writable.buf
    {
      writable.View() + Maintaining()
    }

    function Reading(): seq<Id>
      requires owning.Ok() && maintainable.Ok() && writable.Ok() && readable.Ok()
      reads this, owning.buf, maintainable.buf, writable.buf, readable.buf
    {
      readable.View() + Writing()
    }

    /** The weaker a role, the more it covers: its own workspaces first, then those of the stronger
        roles. */
    lemma ListsAreJoined()
      requires Separate()
      ensures Owning() == owning.View() && Maintaining() == maintainable.View() + owning.View()
      ensures Writing() == writable.View() + maintainable.View() + owning.View()
      ensures Reading() == readable.View() + writable.View() + maintainable.View() + owning.View()
    {
    }

    /** A list that shares an array with the operator shows a prefix of what this array is ever
        filled with; so rewriting the shared cells writes the values that are already there. */
    ghost predicate Prefixed(s: IdSlice, xs: seq<Id>)
      requires Separate()
      reads this, owning.buf, maintainable.buf, writable.buf, readable.buf
    {
      && (s.buf == owning.buf ==> xs <= Owning())
      && (s.buf == maintainable.buf ==> xs <= Maintaining())
      && (s.buf == writable.buf ==> xs <= Writing())
      && (s.buf == readable.buf ==> xs <= Reading())
    }

    ghost predicate Valid()
      reads this, owning.buf, maintainable.buf, writable.buf, readable.buf, set s | s in issued :: s.buf
    {
      && Separate()
      && |issued| == |shown|
      && forall k :: 0 <= k < |issued| ==> issued[k].Ok() && issued[k].View() == shown[k] && Prefixed(issued[k], shown[k])
    }

    constructor (r: seq<Id>, w: seq<Id>, m: seq<Id>, o: seq<Id>, spare: (nat, nat, nat, nat))
      ensures Valid() && issued == []
      ensures readable.View() == r && writable.View() == w && maintainable.View() == m && owning.View() == o
      ensures fresh(readable.buf) && fresh(writable.buf) && fresh(maintainable.buf) && fresh(owning.buf)
    {
      var rs := Make(r, spare.0);
      var wst := Make(w, spare.1);
      var ms := Make(m, spare.2);
      var os := Make(o, spare.3);
      readable, writable, maintainable, owning := rs, wst, ms, os;
      issued, shown := [], [];
    }

    ghost method Issue(s: IdSlice, xs: seq<Id>)
      requires Valid() && s.Ok() && s.View() == xs && Prefixed(s, xs)
      modifies this`issued, this`shown
      ensures Valid() && issued == old(issued) + [s] && shown == old(shown) + [xs]
    {
      issued, shown := issued + [s], shown + [xs];
    }

    method AllOwningWorkspaces() returns (list: IdSlice)
      requires Valid()
      modifies this`issued, this`shown
      ensures Valid() && list.Ok() && list.View() == Owning()
      ensures issued == old(issued) + [list] && shown == old(shown) + [list.View()]
    {
      list := owning;
      Issue(list, Owning());
    }

    method AllMaintainingWorkspaces() returns (list: IdSlice)
      requires Valid()
      modifies this`issued, this`shown, maintainable.buf
      ensures Valid() && list.Ok() && list.View() == Maintaining()
      ensures maintainable.View() == old(maintainable.View())
      ensures old(issued) <= issued && old(shown) <= shown && |issued| > |old(issued)|
      ensures issued[|issued| - 1] == list && shown[|shown| - 1] == list.View()
      ensures list.buf == maintainable.buf || fresh(list.buf)
    {
      var owned := AllOwningWorkspaces();
      ghost var m, w, r := Maintaining(), Writing(), Reading();
      label Appending:
      list := Append(maintainable, owned.View());
      assert Maintaining() == m && Writing() == w && Reading() == r;
      forall k | 0 <= k < |issued|
        ensures issued[k].Ok() && issued[k].View() == shown[k] && Prefixed(issued[k], shown[k])
      {
        assert old@Appending(issued[k].View() == shown[k] && Prefixed(issued[k], shown[k]));
      }
      Issue(list, Maintaining());
    }

    method AllWritableWorkspaces() returns (list: IdSlice)
      requires Valid()
      modifies this`issued, this`shown, maintainable.buf, writable.buf
      ensures Valid() && list.Ok() && list.View() == Writing()
      ensures maintainable.View() == old(maintainable.View()) && writable.View() == old(writable.View())
      ensures old(issued) <= issued && old(shown) <= shown && |issued| > |old(issued)|
      ensures issued[|issued| - 1] == list && shown[|shown| - 1] == list.View()
      ensures list.buf == writable.buf || fresh(list.buf)
    {
      var maintained := AllMaintainingWorkspaces();
      ghost var w, r := Writing(), Reading();
      label Appending:
      list := Append(writable, maintained.View());
      assert Writing() == w && Reading() == r;
      forall k | 0 <= k < |issued|
        ensures issued[k].Ok() && issued[k].View() == shown[k] && Prefixed(issued[k], shown[k])
      {
        assert old@Appending(issued[k].View() == shown[k] && Prefixed(issued[k], shown[k]));
      }
      Issue(list, Writing());
    }

    method AllReadableWorkspaces() returns (list: IdSlice)
      requires Valid()
      modifies this`issued, this`shown, maintainable.buf, writable.buf, readable.buf
      ensures Valid() && list.Ok() && list.View() == Reading()
      ensures maintainable.View() == old(maintainable.View()) && writable.View() == old(writable.View())
      ensures readable.View() == old(readable.View())
      ensures old(issued) <= issued && old(shown) <= shown && |issued| > |old(issued)|
      ensures issued[|issued| - 1] == list && shown[|shown| - 1] == list.View()
      ensures list.buf == readable.buf || fresh(list.buf)
    {
      var written := AllWritableWorkspaces();
      ghost var r := Reading();
      label Appending:
      list := Append(readable, written.View());
      assert Reading() == r;
      forall k | 0 <= k < |issued|
        ensures issued[k].Ok() && issued[k].View() == shown[k] && Prefixed(issued[k], shown[k])
      {
        assert old@Appending(issued[k].View() == shown[k] && Prefixed(issued[k], shown[k]));
      }
      Issue(list, Reading());
    }

    method IsOwningWorkspace(ws: seq<Id>) returns (b: bool)
      requires Valid()
      modifies this`issued, this`shown
      ensures Valid() && old(issued) <= issued && old(shown) <= shown
      ensures b <==> exists w <- ws :: w in owning.View()
    {
      var list := AllOwningWorkspaces();
      ListsAreJoined();
      b := Intersects(list.View(), ws);
    }

    method IsMaintainingWorkspace(ws: seq<Id>) returns (b: bool)
      requires Valid()
      modifies this`issued, this`shown, maintainable.buf
      ensures Valid() && old(issued) <= issued && old(shown) <= shown
      ensures maintainable.View() == old(maintainable.View())
      ensures b <==> exists w <- ws :: w in maintainable.View() || w in owning.View()
    {
      var list := AllMaintainingWorkspaces();
      ListsAreJoined();
      b := Intersects(list.View(), ws);
    }

    method IsWritableWorkspace(ws: seq<Id>) returns (b: bool)
      requires Valid()
      modifies this`issued, this`shown, maintainable.buf, writable.buf
      ensures Valid() && old(issued) <= issued && old(shown) <= shown
      ensures maintainable.View() == old(maintainable.View()) && writable.View() == old(writable.View())
      ensures b <==> exists w <- ws :: w in writable.View() || w in maintainable.View() || w in owning.View()
    {
      var list := AllWritableWorkspaces();
      ListsAreJoined();
      b := Intersects(list.View(), ws);
    }

    method IsReadableWorkspace(ws: seq<Id>) returns (b: bool)
      requires Valid()
      modifies this`issued, this`shown, maintainable.buf, writable.buf, readable.buf
      ensures Valid() && old(issued) <= issued && old(shown) <= shown
      ensures maintainable.View() == old(maintainable.View()) && writable.View() == old(writable.View())
      ensures readable.View() == old(readable.View())
      ensures b <==> exists w <- ws ::
        w in readable.View() || w in writable.View() || w in maintainable.View() || w in owning.View()
    {
      var list := AllReadableWorkspaces();
      ListsAreJoined();
      b := Intersects(list.View(), ws);
    }

    method AddNewWorkspace(ws: Id)
      requires Valid()
      modifies this`owning, owning.buf
      ensures Valid() && owning.View() == old(owning.View()) + [ws]
      ensures owning.buf == old(owning.buf) || fresh(owning.buf)
    {
      ghost var o, m, w, r := Owning(), Maintaining(), Writing(), Reading();
      owning := Append(owning, [ws]);
      assert Owning() == o + [ws];
      assert Maintaining() == m + [ws];
      assert Writing() == w + [ws];
      assert Reading() == r + [ws];
      forall k | 0 <= k < |issued|
        ensures issued[k].Ok() && issued[k].View() == shown[k] && Prefixed(issued[k], shown[k])
      {
        assert old(issued[k].View() == shown[k] && Prefixed(issued[k], shown[k]));
      }
    }
  }

  method Intersects(list: seq<Id>, ws: seq<Id>) returns (b: bool)
    ensures b <==> exists w :: w in ws && w in list
  {
    b := false;
    for i := 0 to |list|
      invariant b <==> exists w :: w in ws && w in list[..i]
    {
      if list[i] in ws {
        b := true;
      }
    }
    assert list[..|list|] == list;
  }

  datatype Call =
    | AllOwning | AllMaintaining | AllWritable | AllReadable
    | IsOwning(ws: seq<Id>) | IsMaintaining(ws: seq<Id>) | IsWritable(ws: seq<Id>) | IsReadable(ws: seq<Id>)
    | AddNew(w: Id)

  function Added(calls: seq<Call>): seq<Id>
  {
    if calls == [] then []
    else Added(calls[..|calls| - 1]) + if calls[|calls| - 1].AddNew? then [calls[|calls| - 1].w] else []
  }

  method Perform(o: Operator, call: Call)
    requires o.Valid()
    modifies o, o.owning.buf, o.maintainable.buf, o.writable.buf, o.readable.buf
    ensures o.Valid()
    ensures o.readable == old(o.readable) && o.writable == old(o.writable) && o.maintainable == old(o.maintainable)
    ensures o.owning.buf == old(o.owning.buf) || fresh(o.owning.buf)
    ensures o.readable.View() == old(o.readable.View()) && o.writable.View() == old(o.writable.View())
    ensures o.maintainable.View() == old(o.maintainable.View())
    ensures o.Owning() == old(o.Owning()) + if call.AddNew? then [call.w] else []
    ensures old(o.issued) <= o.issued && old(o.shown) <= o.shown
  {
    var list, b;
    match call {
      case AllOwning => list := o.AllOwningWorkspaces();
      case AllMaintaining => list := o.AllMaintainingWorkspaces();
      case AllWritable => list := o.AllWritableWorkspaces();
      case AllReadable => list := o.AllReadableWorkspaces();
      case IsOwning(ws) => b := o.IsOwningWorkspace(ws);
      case IsMaintaining(ws) => b := o.IsMaintainingWorkspace(ws);
      case IsWritable(ws) => b := o.IsWritableWorkspace(ws);
      case IsReadable(ws) => b := o.IsReadableWorkspace(ws);
      case AddNew(w) => o.AddNewWorkspace(w);
    }
  }

  /** No sequence of calls changes what the operator's lists show, except for the workspaces
      added at the end of the owning list, nor what any list handed out before shows. */
  method RunCalls(o: Operator, calls: seq<Call>)
    requires o.Valid()
    modifies o, o.owning.buf, o.maintainable.buf, o.writable.buf, o.readable.buf
    ensures o.Valid()
    ensures o.readable.View() == old(o.readable.View()) && o.writable.View() == old(o.writable.View())
    ensures o.maintainable.View() == old(o.maintainable.View())
    ensures o.Owning() == old(o.Owning()) + Added(calls)
    ensures old(o.issued) <= o.issued
    ensures forall k :: 0 <= k < |old(o.issued)| ==> old(o.issued)[k].View() == old(o.issued[k].View())
  {
    for i := 0 to |calls|
      invariant o.Valid()
      invariant o.readable == old(o.readable) && o.writable == old(o.writable) && o.maintainable == old(o.maintainable)
      invariant o.owning.buf == old(o.owning.buf) || fresh(o.owning.buf)
      invariant o.readable.View() == old(o.readable.View()) && o.writable.View() == old(o.writable.View())
      invariant o.maintainable.View() == old(o.maintainable.View())
      invariant o.Owning() == old(o.Owning()) + Added(calls[..i])
      invariant old(o.issued) <= o.issued && old(o.shown) <= o.shown
    {
      assert calls[..i + 1][..i] == calls[..i];
      Perform(o, calls[i]);
    }
    assert calls[..|calls|] == calls;
    forall k | 0 <= k < |old(o.issued)|
      ensures old(o.issued)[k].View() == old(o.issued[k].View())
    {
      assert o.issued[k] == old(o.issued)[k] && o.shown[k] == old(o.shown)[k];
      assert old(o.issued[k].View() == o.shown[k]);
      assert o.issued[k].View() == o.shown[k];
    }
  }
}
