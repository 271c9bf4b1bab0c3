/** How an object function splits its fields: a resolver field under a defer directive goes into the
    group of its label and leaves a null in the object.  Every other field is written at its place,
    a plain field also under a defer directive. */
module DeferredFields {
  import opened Wrappers

  /** A collected field; `deferTag` is the label of its defer directive, if it has one, and a
      field that is no resolver is read straight from the object. */
  datatype Field = Field(name: string, resolver: bool, deferTag: Option<string>)
  {
    /** The label of the group that the field goes to. */
    function Group(): Option<string> { if resolver then deferTag else None }
  }

  datatype Cell = Value(field: Field) | NullForDeferred

  /** The fields with the given tag, in order. */
  function Tagged(fields: seq<Field>, tag: string): seq<Field>
  {
    if fields == [] then []
    else Tagged(fields[..|fields| - 1], tag) + if fields[|fields| - 1].Group() == Some(tag) then [fields[|fields| - 1]] else []
  }

  /** One group per tag that occurs, with all fields of the tag in order. */
  ghost predicate GroupsOf(deferred: map<string, seq<Field>>, fields: seq<Field>)
  {
    forall tag :: (tag in deferred <==> Tagged(fields, tag) != []) && (tag in deferred ==> deferred[tag] == Tagged(fields, tag))
  }

  /** What the object holds for each field. */
  function Cells(fields: seq<Field>): (out: seq<Cell>)
    ensures |out| == |fields|
  {
    if fields == [] then []
    else Cells(fields[..|fields| - 1]) + [if fields[|fields| - 1].Group().Some? then NullForDeferred else Value(fields[|fields| - 1])]
  }

  /** Where the value of f goes when it follows the fields `before`: its own place in the object,
      or the next one in the field set of its group. */
  function NextPlace(before: seq<Field>, f: Field): nat
  {
    if f.Group().Some? then |Tagged(before, f.Group().value)| else |before|
  }

  function Places(fields: seq<Field>): (places: seq<nat>)
    ensures |places| == |fields|
  {
    if fields == [] then [] else Places(fields[..|fields| - 1]) + [NextPlace(fields[..|fields| - 1], fields[|fields| - 1])]
  }

  /** The loop over the collected fields. */
  method SplitFields(fields: seq<Field>) returns (out: seq<Cell>, deferred: map<string, seq<Field>>, places: seq<nat>)
    ensures out == Cells(fields) && places == Places(fields) && GroupsOf(deferred, fields)
    ensures IsSplit(fields, out, deferred, places)
  {
    out, deferred, places := [], map[], [];
    for n := 0 to |fields|
      invariant out == Cells(fields[..n]) && places == Places(fields[..n]) && GroupsOf(deferred, fields[..n])
    {
      var f := fields[n];
      if f.resolver && f.deferTag.Some? {
        var tag := f.deferTag.value;
        var group := if tag in deferred then deferred[tag] else [];
        DeferTurn(fields, n, deferred, group);
        out, places := out + [NullForDeferred], places + [|group|];
        deferred := deferred[tag := group + [f]];
      } else {
        WriteTurn(fields, n, deferred);
        out, places := out + [Value(f)], places + [n];
      }
    }
    assert fields[..|fields|] == fields;
    SplitIsOk(fields, out, deferred, places);
  }

  /** What the loop leaves, field by field: a plain field, or one without defer directive, has its own
      value at its own place; every other field has a null there and its cell in the group of its
      label, in order; and a group holds nothing else. */
  ghost predicate IsSplit(fields: seq<Field>, out: seq<Cell>, deferred: map<string, seq<Field>>, places: seq<nat>)
  {
    && |out| == |places| == |fields|
    && (forall i :: 0 <= i < |fields| ==>
          if fields[i].resolver && fields[i].deferTag != None then out[i] == NullForDeferred && InGroup(fields, deferred, places, i)
          else out[i] == Value(fields[i]) && places[i] == i)
    && (forall i, j :: 0 <= i < j < |fields| && SameGroup(fields[i], fields[j]) ==> places[i] < places[j])
    && (forall tag <- deferred :: deferred[tag] != [])
    && (forall tag, k :: tag in deferred && 0 <= k < |deferred[tag]| ==> IsMember(fields, places, deferred[tag][k], tag, k))
  }

  predicate SameGroup(f: Field, g: Field) { f.resolver && g.resolver && f.deferTag != None && f.deferTag == g.deferTag }

  ghost predicate IsMember(fields: seq<Field>, places: seq<nat>, f: Field, tag: string, k: nat)
    requires |places| == |fields|
  {
    exists i :: 0 <= i < |fields| && fields[i] == f && f.resolver && f.deferTag == Some(tag) && places[i] == k
  }

  lemma SplitIsOk(fields: seq<Field>, out: seq<Cell>, deferred: map<string, seq<Field>>, places: seq<nat>)
    requires out == Cells(fields) && places == Places(fields) && GroupsOf(deferred, fields)
    ensures IsSplit(fields, out, deferred, places)
  {
    forall i | 0 <= i < |fields|
      ensures if fields[i].resolver && fields[i].deferTag != None then out[i] == NullForDeferred && InGroup(fields, deferred, places, i)
              else out[i] == Value(fields[i]) && places[i] == i
    {
      WrittenAtOnceIff(fields, i);
      if fields[i].Group().Some? {
        DeferredFieldsHaveTheirPlace(fields, i, i);
      }
    }
    forall i, j | 0 <= i < j < |fields| && SameGroup(fields[i], fields[j]) ensures places[i] < places[j] {
      DeferredFieldsHaveTheirPlace(fields, i, j);
    }
    forall tag, k | tag in deferred && 0 <= k < |deferred[tag]| ensures IsMember(fields, places, deferred[tag][k], tag, k) {
      var i := MemberOfGroup(fields, tag, k);
    }
  }

  /** Field i is in the group of its label, at its place. */
  predicate InGroup(fields: seq<Field>, deferred: map<string, seq<Field>>, places: seq<nat>, i: nat)
    requires i < |fields| && i < |places|
  {
    match fields[i].deferTag
    case None => false
    case Some(tag) => tag in deferred && places[i] < |deferred[tag]| && deferred[tag][places[i]] == fields[i]
  }

  lemma {:induction false} MemberOfGroup(fields: seq<Field>, tag: string, k: nat) returns (i: nat)
    requires k < |Tagged(fields, tag)|
    ensures i < |fields| && fields[i].Group() == Some(tag) && fields[i] == Tagged(fields, tag)[k] && Places(fields)[i] == k
  {
    var n := |fields| - 1;
    if k < |Tagged(fields[..n], tag)| {
      i := MemberOfGroup(fields[..n], tag, k);
    } else {
      i := n;
    }
  }

  /** One turn of the loop for a field that is written at once. */
  lemma WriteTurn(fields: seq<Field>, n: nat, deferred: map<string, seq<Field>>)
    requires n < |fields| && fields[n].Group().None? && GroupsOf(deferred, fields[..n])
    ensures Cells(fields[..n + 1]) == Cells(fields[..n]) + [Value(fields[n])]
    ensures Places(fields[..n + 1]) == Places(fields[..n]) + [n]
    ensures GroupsOf(deferred, fields[..n + 1])
  {
    assert fields[..n + 1][..n] == fields[..n];
  }

  /** And for one that joins the group of its label. */
  lemma DeferTurn(fields: seq<Field>, n: nat, deferred: map<string, seq<Field>>, group: seq<Field>)
    requires n < |fields| && fields[n].Group().Some? && GroupsOf(deferred, fields[..n])
    requires var tag := fields[n].Group().value; group == if tag in deferred then deferred[tag] else []
    ensures Cells(fields[..n + 1]) == Cells(fields[..n]) + [NullForDeferred]
    ensures Places(fields[..n + 1]) == Places(fields[..n]) + [|group|]
    ensures GroupsOf(deferred[fields[n].Group().value := group + [fields[n]]], fields[..n + 1])
  {
    assert fields[..n + 1][..n] == fields[..n];
    assert group == Tagged(fields[..n], fields[n].Group().value);
  }

  lemma {:induction false} TaggedGrows(fields: seq<Field>, i: nat, tag: string)
    requires i <= |fields|
    ensures Tagged(fields[..i], tag) <= Tagged(fields, tag)
  {
    if i < |fields| {
      var n := |fields| - 1;
      TaggedGrows(fields[..n], i, tag);
      assert fields[..n][..i] == fields[..i];
    } else {
      assert fields[..i] == fields;
    }
  }

  lemma {:induction false} PlaceAt(fields: seq<Field>, i: nat)
    requires i < |fields|
    ensures Places(fields)[i] == NextPlace(fields[..i], fields[i])
    ensures Cells(fields)[i] == if fields[i].Group().Some? then NullForDeferred else Value(fields[i])
  {
    var n := |fields| - 1;
    if i < n {
      PlaceAt(fields[..n], i);
      assert fields[..n][..i] == fields[..i];
    }
  }

  /** A field is written at its own place exactly when it is plain or not deferred. */
  lemma WrittenAtOnceIff(fields: seq<Field>, i: nat)
    requires i < |fields|
    ensures Cells(fields)[i] == Value(fields[i]) && Places(fields)[i] == i <==> !fields[i].resolver || fields[i].deferTag.None?
  {
    PlaceAt(fields, i);
  }

  /** Every deferred field has a cell of its own in its group's field set, and the object gets a
      null for it. */
  lemma DeferredFieldsHaveTheirPlace(fields: seq<Field>, i: nat, j: nat)
    requires i < |fields| && fields[i].Group().Some?
    ensures var group := Tagged(fields, fields[i].Group().value);
      && Places(fields)[i] < |group| && group[Places(fields)[i]] == fields[i]
      && Cells(fields)[i] == NullForDeferred
      && (i < j < |fields| && fields[j].Group() == fields[i].Group() ==> Places(fields)[i] < Places(fields)[j])
  {
    var tag := fields[i].Group().value;
    PlaceAt(fields, i);
    TaggedGrows(fields, i + 1, tag);
    assert fields[..i + 1][..i] == fields[..i];
    if i < j < |fields| {
      PlaceAt(fields, j);
      TaggedGrows(fields[..j], i + 1, tag);
      assert fields[..j][..i + 1] == fields[..i + 1];
    }
  }
}
