/** Requests that need no authentication: the decision of isBypassed, and the request body that
    it reads and must hand on unchanged. */
module Bypass {
  import opened GraphqlSyntax
  import opened Wrappers

  type Byte = bv8

  const MaxBypassBodySize: nat := 100 * 1024

  // ----- request bodies

  datatype ReadStatus = More | EndOfFile | Failed

  /** What is still to be read: the bytes, how many of them come before the failure, if there is
      one, and how many can be asked for without meeting it. */
  datatype Stream = Stream(bytes: seq<Byte>, failsAfter: Option<nat>, safe: Option<nat>)
  {
    /** The stream with bytes in front of it. */
    function After(head: seq<Byte>): Stream { Stream(head + bytes, Later(failsAfter, |head|), Later(safe, |head|)) }
  }

  function Later(n: Option<nat>, k: nat): Option<nat> { if n.Some? then Some(n.value + k) else None }

  lemma AfterTwoParts(s: Stream, a: seq<Byte>, b: seq<Byte>)
    ensures s.After(b).After(a) == s.After(a + b)
  {
    assert a + (b + s.bytes) == a + b + s.bytes;
  }

  lemma AfterNothing(s: Stream)
    ensures s.After([]) == s
  {
    assert [] + s.bytes == s.bytes;
  }

  lemma ReadFromHead(rest: Stream, head: seq<Byte>, n: nat, max: nat)
    requires 0 < n <= max && n <= |head|
    ensures ReadOutcome(rest.After(head), head[..n], More, rest.After(head[n..]), max)
  {
    assert head[..n] + head[n..] == head;
    AfterTwoParts(rest, head[..n], head[n..]);
  }

  /** What a read of at most `max` bytes may report: a failure only when `max` bytes were not safe,
      and then after all bytes before it; the end only after all bytes of a body that does not
      fail. */
  predicate ReadOutcome(before: Stream, chunk: seq<Byte>, status: ReadStatus, after: Stream, max: nat)
  {
    && |chunk| <= max && before.bytes == chunk + after.bytes && (status != Failed ==> before == after.After(chunk))
    && match status
       case Failed => before.safe.Some? && before.safe.value < max && before.failsAfter == Some(|chunk|)
       case EndOfFile => after.bytes == [] && before.safe == before.failsAfter == None
       case More => chunk != []
  }

  /** The same of several reads with the outcome of the last one. */
  lemma OneMoreRead(start: Stream, read: seq<Byte>, before: Stream, chunk: seq<Byte>, status: ReadStatus, after: Stream, max: nat)
    requires start == before.After(read) && ReadOutcome(before, chunk, status, after, max)
    ensures ReadOutcome(start, read + chunk, status, after, |read| + max)
  {
    assert read + before.bytes == (read + chunk) + after.bytes;
    if status != Failed {
      AfterTwoParts(after, read, chunk);
    }
  }

  /** A body on the network: it can be read once, in chunks that it chooses.  A body that fails
      does so at position `failAt`; when it is `early`, the read that gets there reports the failure
      together with its last bytes, otherwise the next read does. */
  class Body {
    const data: seq<Byte>
    const failAt: Option<nat>
    const early: bool
    var pos: nat
    var closed: bool

    ghost predicate Valid()
      reads this
    {
      pos <= |data| && (failAt.Some? ==> pos <= failAt.value <= |data|)
    }

    function Unread(): Stream
      requires Valid()
      reads this
    {
      if failAt.None? then Stream(data[pos..], None, None)
      else
        var n: nat := failAt.value - pos;
        Stream(data[pos..], Some(n), Some(if early && n > 0 then n - 1 else n))
    }

    constructor (data: seq<Byte>, failAt: Option<nat>, early: bool)
      requires failAt.Some? ==> failAt.value <= |data|
      ensures Valid() && Unread().bytes == data && Unread().failsAfter == failAt && !closed
      ensures this.early == early
    {
      this.data, this.failAt, this.early := data, failAt, early;
      pos, closed := 0, false;
    }

    method Read(max: nat) returns (chunk: seq<Byte>, status: ReadStatus)
      requires Valid() && max > 0
      modifies this`pos
      ensures Valid() && ReadOutcome(old(Unread()), chunk, status, Unread(), max)
    {
      if failAt == Some(pos) {
        return [], Failed;
      }
      if pos == |data| {
        return [], EndOfFile;
      }
      var stop := if failAt.Some? then failAt.value else |data|;
      var n :| 0 < n <= max && n <= stop - pos;
      chunk, status := data[pos..pos + n], More;
      pos := pos + n;
      if pos == stop && failAt.Some? && early {
        status := Failed;
      } else if pos == stop && failAt.None? {
        // The end comes with the last bytes or with the next read.
        var now: bool := *;
        status := if now then EndOfFile else More;
      }
    }

    method Close()
      modifies this`closed
      ensures closed
    {
      closed := true;
    }
  }

  /** A reader over bytes that are already in memory. */
  class Buffer {
    const bytes: seq<Byte>
    var pos: nat

    constructor (bytes: seq<Byte>)
      ensures this.bytes == bytes && pos == 0
    {
      this.bytes := bytes;
      pos := 0;
    }
  }

  /** The body of a request: as it came, or a buffer that is read first and then the body that
      the buffer was filled from, which may have been put together in the same way.  Close
      reaches the body that came with the request. */
  datatype RequestBody = Original(body: Body) | ReadCloser(head: Buffer, rest: RequestBody)
  {
    function Base(): Body { if Original? then body else rest.Base() }

    function Heads(): set<Buffer> { if Original? then {} else {head} + rest.Heads() }

    ghost predicate Valid()
      reads Base(), Heads()
    {
      if Original? then body.Valid() else head !in rest.Heads() && head.pos <= |head.bytes| && rest.Valid()
    }

    /** Everything that downstream can still read. */
    function Unread(): Stream
      requires Valid()
      reads Base(), Heads()
    {
      if Original? then body.Unread() else rest.Unread().After(head.bytes[head.pos..])
    }

    /** A read that the buffer serves. */
    method ReadHead(max: nat) returns (chunk: seq<Byte>)
      requires ReadCloser? && Valid() && max > 0 && head.pos < |head.bytes|
      modifies head
      ensures Valid() && ReadOutcome(old(Unread()), chunk, More, Unread(), max)
    {
      var n := if max < |head.bytes| - head.pos then max else |head.bytes| - head.pos;
      chunk := head.bytes[head.pos..head.pos + n];
      ghost var more, tail := rest.Unread(), head.bytes[head.pos..];
      assert Unread() == more.After(tail) && chunk == tail[..n];
      ReadFromHead(more, tail, n, max);
      HeadsAreAllocated(rest);
      assert head !in rest.Heads() && rest.Base() as object != head;
      head.pos := head.pos + n;
      assert rest.Valid() && rest.Unread() == more;
      assert head.bytes[head.pos..] == tail[n..];
      assert Unread() == more.After(tail[n..]);
    }

    method Read(max: nat) returns (chunk: seq<Byte>, status: ReadStatus)
      requires Valid() && max > 0
      modifies Base()`pos, Heads()
      ensures Valid() && ReadOutcome(old(Unread()), chunk, status, Unread(), max)
      decreases this
    {
      if Original? {
        chunk, status := body.Read(max);
      } else if head.pos < |head.bytes| {
        chunk := ReadHead(max);
        status := More;
      } else {
        ghost var before := rest.Unread();
        AfterNothing(before);
        chunk, status := rest.Read(max);
        AfterNothing(rest.Unread());
      }
    }

    method Close()
      modifies Base()`closed
      ensures Base().closed
      decreases this
    {
      match this
      case Original(body) => body.Close();
      case ReadCloser(_, rest) => rest.Close();
    }
  }

  /** A failure does not lie beyond the bytes, and what is safe to ask for reaches up to it or to
      the byte before. */
  lemma {:induction false} FailureIsWithin(b: RequestBody)
    requires b.Valid()
    ensures var s := b.Unread();
      && (s.safe.Some? <==> s.failsAfter.Some?)
      && (s.safe.Some? ==> s.safe.value <= s.failsAfter.value <= |s.bytes| && s.failsAfter.value <= s.safe.value + 1)
    decreases b
  {
    if b.ReadCloser? {
      FailureIsWithin(b.rest);
    }
  }

  lemma {:induction false} HeadsAreAllocated(b: RequestBody)
    ensures allocated(b.Base()) && forall h <- b.Heads() :: allocated(h)
    decreases b
  {
    if b.ReadCloser? {
      HeadsAreAllocated(b.rest);
    }
  }

  /** Reads at most `limit` bytes, in chunks of any size. */
  method ReadAllLimited(b: RequestBody, limit: nat) returns (bytes: seq<Byte>, ok: bool)
    requires b.Valid()
    modifies b.Base()`pos, b.Heads()
    ensures b.Valid() && |bytes| <= limit && old(b.Unread()).bytes == bytes + b.Unread().bytes
    ensures ok <==> (old(b.Unread()).safe.Some? ==> limit <= old(b.Unread()).safe.value)
    ensures ok ==> old(b.Unread()) == b.Unread().After(bytes) && (|bytes| == limit || b.Unread().bytes == [])
    ensures !ok ==> old(b.Unread()).failsAfter == Some(|bytes|)
  {
    bytes := [];
    ghost var start, now := b.Unread(), b.Unread();
    assert now.After([]).bytes == now.bytes;
    while |bytes| < limit
      invariant b.Valid() && |bytes| <= limit && now == b.Unread() && start == now.After(bytes)
      decreases limit - |bytes|
    {
      var size: nat :| 0 < size <= limit - |bytes|;
      ghost var was := now;
      var chunk, status := b.Read(size);
      now := b.Unread();
      OneMoreRead(start, bytes, was, chunk, status, now, size);
      bytes := bytes + chunk;
      if status != More {
        return bytes, status == EndOfFile;
      }
    }
    FailureIsWithin(b);
    ok := true;
  }

  /** Downstream reads a body to its end or to its failure, in chunks of any size. */
  method Drain(b: RequestBody) returns (bytes: seq<Byte>, ok: bool)
    requires b.Valid()
    modifies b.Base()`pos, b.Heads()
    ensures ok <==> old(b.Unread()).failsAfter.None?
    ensures ok ==> bytes == old(b.Unread()).bytes
    ensures !ok ==> bytes <= old(b.Unread()).bytes && old(b.Unread()).failsAfter == Some(|bytes|)
  {
    bytes := [];
    ghost var start, now := b.Unread(), b.Unread();
    assert now.After([]).bytes == now.bytes;
    while true
      invariant b.Valid() && now == b.Unread() && start == now.After(bytes)
      decreases |now.bytes|
    {
      var size: nat :| size > 0;
      ghost var was := now;
      var chunk, status := b.Read(size);
      now := b.Unread();
      OneMoreRead(start, bytes, was, chunk, status, now, size);
      bytes := bytes + chunk;
      if status != More {
        return bytes, status == EndOfFile;
      }
    }
  }

  // ----- the decision

  datatype GraphqlRequest = GraphqlRequest(query: string, operationName: string)

  type Decoder = seq<Byte> -> Option<GraphqlRequest>

  /** Lower-casing of one character. */
  type Fold = char -> char

  const BypassedFields: set<string> :=
    {"authconfig", "createverification", "findbyalias", "findbyid", "findbyids", "findusersbyidswithpagination",
     "signup", "signupoidc", "signupsso", "startpasswordreset"}

  function ToLower(s: string, fold: Fold): (r: string)
    ensures |r| == |s| && forall i :: 0 <= i < |s| ==> r[i] == fold(s[i])
  {
    seq(|s|, i requires 0 <= i < |s| => fold(s[i]))
  }

  /** Section 6.1: operation i is the one to execute.  Without a name the document must have one
      operation only; with a name it is the first operation that has it. */
  predicate Chosen(ops: seq<Operation>, name: string, i: nat)
    requires i < |ops|
  {
    if name == "" then |ops| == 1 else ops[i].name == name && forall k :: 0 <= k < i ==> ops[k].name != name
  }

  predicate Allowed(s: Selection, fold: Fold) { s.Field? && ToLower(s.name, fold) in BypassedFields }

  predicate AllAllowed(op: Operation, fold: Fold)
  {
    op.selections != [] && forall s <- op.selections :: Allowed(s, fold)
  }

  /** What a request must be to pass without authentication. */
  ghost predicate ShouldBypass(httpMethod: string, body: seq<Byte>, decode: Decoder, fold: Fold)
  {
    && httpMethod == "POST"
    && |body| <= MaxBypassBodySize
    && decode(body).Some?
    && var request := decode(body).value;
    && Parse(request.query).Some?
    && SelectsAllowed(Parse(request.query).value.operations, request.operationName, fold)
  }

  /** The operation to execute exists, and its root selection is not empty and has only allowed fields. */
  ghost predicate SelectsAllowed(ops: seq<Operation>, name: string, fold: Fold)
  {
    exists i :: 0 <= i < |ops| && Chosen(ops, name, i) && AllAllowed(ops[i], fold)
  }

  function Contains(s: string, part: string): bool
  {
    part <= s || (s != [] && Contains(s[1..], part))
  }

  lemma {:induction false} ContainsIff(s: string, part: string)
    ensures Contains(s, part) <==> Occurs(s, part)
  {
    OccursFirstOrLater(s, part);
    if !(part <= s) && s != [] {
      ContainsIff(s[1..], part);
    }
  }

  lemma OccursFirstOrLater(s: string, part: string)
    ensures Occurs(s, part) <==> part <= s || (s != [] && Occurs(s[1..], part))
  {
    if part <= s {
      assert s[0..|part|] == part;
    } else if s != [] && Occurs(s[1..], part) {
      OccursLater(s, 1, part);
    }
    if i, j :| 0 <= i <= j <= |s| && s[i..j] == part {
      if i == 0 {
        assert part == s[..j];
      } else {
        var rest := s[1..];
        assert rest[i - 1..j - 1] == s[i..j];
      }
    }
  }

  lemma LowerOfPart(s: string, i: nat, j: nat, fold: Fold)
    requires i <= j <= |s|
    ensures ToLower(s, fold)[i..j] == ToLower(s[i..j], fold)
  {
  }

  /** The lower-cased query contains an allowlisted name. */
  predicate HasCandidate(query: string, fold: Fold)
  {
    exists field <- BypassedFields :: Contains(ToLower(query, fold), field)
  }

  /** The prefilter never changes the answer: a parsed query whose chosen operation has only
      allowed fields contains one of their names, however it is written and whatever letters
      the lower-casing identifies. */
  lemma PrefilterIsImplied(query: string, op: Operation, fold: Fold)
    requires Parse(query).Some? && op in Parse(query).value.operations && AllAllowed(op, fold)
    ensures HasCandidate(query, fold)
  {
    var s := op.selections[0];
    assert s in op.selections && Allowed(s, fold);
    FieldNamesOccur(query, op, s);
    var i, j :| 0 <= i <= j <= |query| && query[i..j] == s.name;
    var lower := ToLower(query, fold);
    LowerOfPart(query, i, j, fold);
    ContainsIff(lower, ToLower(s.name, fold));
  }

  /** A query that is empty has no operation. */
  lemma EmptyQueryParsesToNothing()
    ensures Parse("").None?
  {
  }

  class Request {
    const httpMethod: string
    var body: RequestBody

    constructor (httpMethod: string, body: RequestBody)
      ensures this.httpMethod == httpMethod && this.body == body
    {
      this.httpMethod, this.body := httpMethod, body;
    }
  }

  /** A read of the first 102401 bytes meets a failure. */
  predicate FailsEarly(s: Stream) { s.safe.Some? && s.safe.value < MaxBypassBodySize + 1 }

  /** The operations of the request and the name that it asks for; none when it cannot be read. */
  function Requested(body: seq<Byte>, decode: Decoder): (seq<Operation>, string)
  {
    if decode(body).None? || Parse(decode(body).value.query).None? then ([], "")
    else (Parse(decode(body).value.query).value.operations, decode(body).value.operationName)
  }

  /** The part that reads the body of the request and puts it together again; None when it fails. */
  method ReadBody(req: Request) returns (read: Option<seq<Byte>>)
    requires req.body.Valid()
    modifies req, req.body.Base()`pos, req.body.Heads()
    ensures req.body.Base() == old(req.body.Base()) && req.body.Valid()
    ensures read == None <==> FailsEarly(old(req.body.Unread()))
    ensures read == None ==> req.body == old(req.body)
    ensures read == None ==>
      (req.body.Unread().bytes == old(req.body.Unread()).bytes <==> old(req.body.Unread()).failsAfter == Some(0))
    ensures read != None ==>
      && req.body.ReadCloser? && fresh(req.body.head) && req.body.head.bytes == read.value && req.body.rest == old(req.body)
      && req.body.Unread() == old(req.body.Unread()) && |read.value| <= MaxBypassBodySize + 1
      && read.value <= old(req.body.Unread()).bytes
      && (|read.value| == MaxBypassBodySize + 1 || read.value == old(req.body.Unread()).bytes)
  {
    var origBody := req.body;
    HeadsAreAllocated(origBody);
    var body, ok := ReadAllLimited(origBody, MaxBypassBodySize + 1);
    if !ok {
      return None;
    }
    var head := new Buffer(body);
    assert head !in origBody.Heads();
    assert head.bytes[head.pos..] == body;
    req.body := ReadCloser(head, origBody);
    read := Some(body);
  }

  method IsBypassed(req: Request, decode: Decoder, fold: Fold) returns (bypassed: bool)
    requires req.body.Valid()
    modifies req, req.body.Base()`pos, req.body.Heads()
    ensures req.body.Base() == old(req.body.Base()) && req.body.Valid()
    ensures req.body == old(req.body)
      || (req.body.ReadCloser? && fresh(req.body.head) && |req.body.head.bytes| <= MaxBypassBodySize + 1 && req.body.rest == old(req.body))
    // The decision.
    ensures bypassed <==>
      ShouldBypass(req.httpMethod, old(req.body.Unread()).bytes, decode, fold) && !FailsEarly(old(req.body.Unread()))
    ensures bypassed ==>
      var (ops, name) := Requested(old(req.body.Unread()).bytes, decode);
      exists i :: 0 <= i < |ops|
        && (if name == "" then |ops| == 1 else ops[i].name == name && forall k :: 0 <= k < i ==> ops[k].name != name)
        && ops[i].selections != [] && forall s <- ops[i].selections :: s.Field? && ToLower(s.name, fold) in BypassedFields
    ensures var (ops, name) := Requested(old(req.body.Unread()).bytes, decode); name == "" && |ops| != 1 ==> !bypassed
    ensures bypassed ==> req.httpMethod == "POST" && |old(req.body.Unread()).bytes| <= 102400
    // Downstream reads the whole body as it was, a later failure included, unless a POST body failed early after some bytes.
    ensures req.body.Unread().bytes == old(req.body.Unread()).bytes <==>
      req.httpMethod != "POST" || !FailsEarly(old(req.body.Unread())) || old(req.body.Unread()).failsAfter == Some(0)
    ensures req.httpMethod != "POST" || !FailsEarly(old(req.body.Unread())) ==> req.body.Unread() == old(req.body.Unread())
  {
    if req.httpMethod != "POST" {
      return false;
    }
    ghost var bytes := req.body.Unread().bytes;
    var body := ReadBody(req);
    HeadsAreAllocated(req.body);
    bypassed := DecideOnBody(body, decode, fold, bytes);
    if bypassed {
      BypassedSelects(req.httpMethod, bytes, decode, fold);
    }
  }

  /** The decision on what was read of the body, whose bytes are all of it or too many. */
  method DecideOnBody(read: Option<seq<Byte>>, decode: Decoder, fold: Fold, ghost bytes: seq<Byte>) returns (bypassed: bool)
    requires read != None ==> read.value <= bytes && (|read.value| == MaxBypassBodySize + 1 || read.value == bytes)
    ensures bypassed <==> read != None && ShouldBypass("POST", bytes, decode, fold)
  {
    if read == None || |read.value| > MaxBypassBodySize {
      return false;
    }
    var decoded := decode(read.value);
    if decoded.None? {
      return false;
    }
    bypassed := Decide(decoded.value, fold);
  }

  lemma BypassedSelects(httpMethod: string, body: seq<Byte>, decode: Decoder, fold: Fold)
    requires ShouldBypass(httpMethod, body, decode, fold)
    ensures var (ops, name) := Requested(body, decode);
      exists i :: 0 <= i < |ops|
        && (if name == "" then |ops| == 1 else ops[i].name == name && forall k :: 0 <= k < i ==> ops[k].name != name)
        && ops[i].selections != [] && forall s <- ops[i].selections :: s.Field? && ToLower(s.name, fold) in BypassedFields
  {
    var (ops, name) := Requested(body, decode);
    var i :| 0 <= i < |ops| && Chosen(ops, name, i) && AllAllowed(ops[i], fold);
    assert forall s <- ops[i].selections :: Allowed(s, fold);
  }

  /** The prefilter, over the names in any order. */
  method Prefilter(queryLower: string) returns (hasCandidate: bool)
    ensures hasCandidate <==> exists field <- BypassedFields :: Contains(queryLower, field)
  {
    hasCandidate := false;
    var todo := BypassedFields;
    while todo != {}
      invariant todo <= BypassedFields && !hasCandidate
      invariant forall field <- BypassedFields :: field in todo || !Contains(queryLower, field)
      decreases |todo|
    {
      var field :| field in todo;
      todo := todo - {field};
      if Contains(queryLower, field) {
        hasCandidate := true;
        break;
      }
    }
  }

  method SelectOperation(doc: Document, operationName: string) returns (targetOp: Option<Operation>)
    ensures operationName == "" ==> targetOp == if |doc.operations| == 1 then Some(doc.operations[0]) else None
    ensures operationName != "" ==> (targetOp == None <==> forall op <- doc.operations :: op.name != operationName)
    ensures operationName != "" && targetOp != None ==>
      exists i :: && 0 <= i < |doc.operations| && doc.operations[i] == targetOp.value && targetOp.value.name == operationName
                  && forall k :: 0 <= k < i ==> doc.operations[k].name != operationName
  {
    if operationName == "" {
      return if |doc.operations| != 1 then None else Some(doc.operations[0]);
    }
    for i := 0 to |doc.operations|
      invariant forall k :: 0 <= k < i ==> doc.operations[k].name != operationName
    {
      if doc.operations[i].name == operationName {
        return Some(doc.operations[i]);
      }
    }
    targetOp := None;
  }

  method CheckFields(op: Operation, fold: Fold) returns (allowed: bool)
    ensures allowed <==> AllAllowed(op, fold)
    ensures allowed <==> op.selections != [] && forall s <- op.selections :: s.Field? && ToLower(s.name, fold) in BypassedFields
  {
    if |op.selections| == 0 {
      return false;
    }
    for i := 0 to |op.selections|
      invariant forall k :: 0 <= k < i ==> Allowed(op.selections[k], fold)
    {
      var s := op.selections[i];
      assert s in op.selections;
      if !s.Field? {
        return false;
      }
      if ToLower(s.name, fold) !in BypassedFields {
        return false;
      }
    }
    allowed := true;
  }

  /** The part of the decision that looks at the decoded request. */
  method Decide(request: GraphqlRequest, fold: Fold) returns (bypassed: bool)
    ensures bypassed <==>
      && Parse(request.query).Some?
      && SelectsAllowed(Parse(request.query).value.operations, request.operationName, fold)
  {
    if request.query == "" {
      EmptyQueryParsesToNothing();
      return false;
    }
    var hasCandidate := Prefilter(ToLower(request.query, fold));
    var doc := Parse(request.query);
    if !hasCandidate {
      if doc.Some? {
        NoCandidateNoBypass(request, fold);
      }
      return false;
    }
    if doc.None? {
      return false;
    }
    var targetOp := SelectOperation(doc.value, request.operationName);
    SelectedIff(doc.value.operations, request.operationName, targetOp, fold);
    if targetOp == None {
      return false;
    }
    bypassed := CheckFields(targetOp.value, fold);
  }

  lemma SelectedIff(ops: seq<Operation>, name: string, targetOp: Option<Operation>, fold: Fold)
    requires if name == "" then targetOp == if |ops| == 1 then Some(ops[0]) else None
      else if targetOp == None then forall op <- ops :: op.name != name
      else exists i :: 0 <= i < |ops| && ops[i] == targetOp.value && Chosen(ops, name, i)
    ensures SelectsAllowed(ops, name, fold) <==> targetOp != None && AllAllowed(targetOp.value, fold)
  {
    if name == "" {
      if |ops| == 1 {
        assert Chosen(ops, name, 0);
      }
    } else if targetOp != None {
      var i :| 0 <= i < |ops| && ops[i] == targetOp.value && Chosen(ops, name, i);
      forall j | 0 <= j < |ops| && Chosen(ops, name, j) ensures j == i {
      }
    } else {
      forall i | 0 <= i < |ops| ensures !Chosen(ops, name, i) {
        assert ops[i] in ops;
      }
    }
  }

  lemma NoCandidateNoBypass(request: GraphqlRequest, fold: Fold)
    requires !HasCandidate(request.query, fold) && Parse(request.query).Some?
    ensures !SelectsAllowed(Parse(request.query).value.operations, request.operationName, fold)
  {
    var ops := Parse(request.query).value.operations;
    if i :| 0 <= i < |ops| && Chosen(ops, request.operationName, i) && AllAllowed(ops[i], fold) {
      PrefilterIsImplied(request.query, ops[i], fold);
    }
  }
}
