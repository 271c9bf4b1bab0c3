/** Go slices: a view on the first `len` cells of a backing array whose length is the capacity.
    Slices that share an array see each other's writes. */
module GoSlices {

  datatype Slice<T> = Slice(buf: array<T>, len: nat)
  {
    ghost predicate Ok() { len <= buf.Length }

    /** The visible contents. */
    function View(): seq<T>
      requires Ok()
      reads buf
    {
      buf[..len]
    }
  }

  /** A new array that shows xs and has `spare` more cells. */
  method Make<T(0)>(xs: seq<T>, spare: nat) returns (r: Slice<T>)
    ensures r.Ok() && fresh(r.buf) && r.View() == xs && r.buf.Length == |xs| + spare
  {
    var a := new T[|xs| + spare];
    for i := 0 to |xs|
      invariant a[..i] == xs[..i]
    {
      a[i] := xs[i];
    }
    r := Slice(a, |xs|);
  }

  /** append(s, xs...): in place when the capacity suffices, else into a new, larger array. */
  method Append<T(0)>(s: Slice<T>, xs: seq<T>) returns (r: Slice<T>)
    requires s.Ok()
    modifies s.buf
    ensures r.Ok() && r.View() == old(s.View()) + xs
    ensures s.len + |xs| <= s.buf.Length ==>
      && r == Slice(s.buf, s.len + |xs|)
      && s.buf[s.len + |xs|..] == old(s.buf[s.len + |xs|..])
    ensures s.len + |xs| > s.buf.Length ==> fresh(r.buf) && s.buf[..] == old(s.buf[..])
    ensures s.View() == old(s.View())
  {
    var n := s.len + |xs|;
    if n <= s.buf.Length {
      for i := 0 to |xs|
        invariant s.buf[..s.len] == old(s.buf[..s.len])
        invariant s.buf[s.len..s.len + i] == xs[..i]
        invariant s.buf[n..] == old(s.buf[n..])
      {
        s.buf[s.len + i] := xs[i];
      }
      r := Slice(s.buf, n);
      assert s.buf[..n] == s.buf[..s.len] + s.buf[s.len..s.len + |xs|];
    } else {
      var growth: nat :| true;
      r := Make(s.buf[..s.len] + xs, growth);
    }
  }

  /** append(s[:i], s[i+1:]...): the elements after i move down one cell in the same array. */
  method RemoveAt<T>(s: Slice<T>, i: nat) returns (r: Slice<T>)
    requires s.Ok() && i < s.len
    modifies s.buf
    ensures r == Slice(s.buf, s.len - 1) && r.View() == old(s.View()[..i] + s.View()[i + 1..])
    ensures s.buf[s.len - 1..] == old(s.buf[s.len - 1..])
  {
    for j := i to s.len - 1
      invariant s.buf[..i] == old(s.buf[..i])
      invariant s.buf[i..j] == old(s.buf[i + 1..j + 1])
      invariant s.buf[j + 1..] == old(s.buf[j + 1..])
      invariant s.buf[s.len - 1..] == old(s.buf[s.len - 1..])
    {
      assert s.buf[j + 1] == s.buf[j + 1..][0] == old(s.buf[j + 1..])[0];
      s.buf[j] := s.buf[j + 1];
    }
    r := Slice(s.buf, s.len - 1);
    assert s.buf[..s.len - 1] == s.buf[..i] + s.buf[i..s.len - 1];
  }
}
