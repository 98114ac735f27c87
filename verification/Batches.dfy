/** `filter_map`: parents are read in batches of `fanOut`, each batch to completion before its first record is
    written; and `drive`, the sink that writes records and counts failures. The reference they are measured
    against is the one-at-a-time map. */
module Batches {
  import opened Text
  import opened FlatMap

  datatype Reader<!A, +R, +C> = Reader(name: A -> Text, read: A -> Result<Option<R>, C>)

  /** One slot of a batch: a record, a failure, or the `None` a filtered parent leaves. */
  function Reply<A, R, C>(c: Reader<A, R, C>, parent: A): Option<Item<R, C>> {
    match c.read(parent)
    case Ok(None) => None
    case Ok(Some(row)) => Some(Row(row))
    case Err(cause) => Some(Context(c.name(parent), cause))
  }

  function Errors<A, R, C>(batch: seq<Result<A, C>>): seq<Option<Item<R, C>>> {
    if batch == [] then []
    else
      var front, last := batch[..|batch| - 1], batch[|batch| - 1];
      if last.Err? then Errors(front) + [Some(Bare(last.error))] else Errors(front)
  }

  function Replies<A, R, C>(c: Reader<A, R, C>, batch: seq<Result<A, C>>): seq<Option<Item<R, C>>> {
    if batch == [] then []
    else
      var front, last := batch[..|batch| - 1], batch[|batch| - 1];
      if last.Ok? then Replies(c, front) + [Reply(c, last.value)] else Replies(c, front)
  }

  /** A batch's rows: the parents that did not parse first, then the reads in parent order. */
  method ReadBatch<A, R, C>(c: Reader<A, R, C>, batch: seq<Result<A, C>>) returns (rows: seq<Option<Item<R, C>>>)
    ensures rows == Errors(batch) + Replies(c, batch)
  {
    var errors: seq<Option<Item<R, C>>>, replies: seq<Option<Item<R, C>>> := [], [];
    for k := 0 to |batch|
      invariant errors == Errors(batch[..k]) && replies == Replies(c, batch[..k])
    {
      assert batch[..k + 1][..k] == batch[..k];
      match batch[k]
      case Ok(parent) => replies := replies + [Reply(c, parent)];
      case Err(cause) => errors := errors + [Some(Bare(cause))];
    }
    assert batch[..|batch|] == batch;
    rows := errors + replies;
  }

  function Present<T>(s: seq<Option<T>>): seq<T> {
    if s == [] then []
    else
      var front, last := s[..|s| - 1], s[|s| - 1];
      if last.Some? then Present(front) + [last.value] else Present(front)
  }

  function BatchOutput<A, R, C>(c: Reader<A, R, C>, batch: seq<Result<A, C>>): seq<Item<R, C>> {
    Present(Errors(batch) + Replies(c, batch))
  }

  /** `chunks(size)`, each chunk read and flattened, the `None` slots dropped. */
  function Batched<A, R, C>(c: Reader<A, R, C>, size: nat, parents: seq<Result<A, C>>): seq<Item<R, C>>
    requires size >= 1
    decreases |parents|
  {
    if parents == [] then []
    else if |parents| <= size then BatchOutput(c, parents)
    else BatchOutput(c, parents[..size]) + Batched(c, size, parents[size..])
  }

  function FilterMap<A, R, C>(c: Reader<A, R, C>, fanOut: nat, parents: seq<Result<A, C>>): seq<Item<R, C>> {
    Batched(c, if fanOut < 1 then 1 else fanOut, parents)
  }

  /** What one parent yields on its own. */
  function Yield<A, R, C>(c: Reader<A, R, C>, parent: Result<A, C>): seq<Item<R, C>> {
    match parent
    case Err(cause) => [Bare(cause)]
    case Ok(value) =>
      match c.read(value)
      case Ok(None) => []
      case Ok(Some(row)) => [Row(row)]
      case Err(cause) => [Context(c.name(value), cause)]
  }

  /** The reference: one parent at a time. */
  function OneAtATime<A, R, C>(c: Reader<A, R, C>, parents: seq<Result<A, C>>): seq<Item<R, C>> {
    if parents == [] then []
    else OneAtATime(c, parents[..|parents| - 1]) + Yield(c, parents[|parents| - 1])
  }

  // ----- projections of an output -----

  datatype Kind = Rows | ParseErrors | ReadErrors

  predicate Is<R, C>(kind: Kind, item: Item<R, C>) {
    match kind
    case Rows => item.Row?
    case ParseErrors => item.Bare?
    case ReadErrors => item.Context?
  }

  function Only<R, C>(kind: Kind, items: seq<Item<R, C>>): seq<Item<R, C>> {
    if items == [] then []
    else
      var front, last := items[..|items| - 1], items[|items| - 1];
      if Is(kind, last) then Only(kind, front) + [last] else Only(kind, front)
  }

  lemma {:induction false} OnlyConcat<R, C>(kind: Kind, a: seq<Item<R, C>>, b: seq<Item<R, C>>)
    ensures Only(kind, a + b) == Only(kind, a) + Only(kind, b)
  {
    if b == [] {
      assert a + b == a;
    } else {
      var n := |a + b| - 1;
      assert (a + b)[..n] == a + b[..|b| - 1] && (a + b)[n] == b[|b| - 1];
      OnlyConcat(kind, a, b[..|b| - 1]);
    }
  }

  lemma {:induction false} PresentConcat<T>(a: seq<Option<T>>, b: seq<Option<T>>)
    ensures Present(a + b) == Present(a) + Present(b)
  {
    if b == [] {
      assert a + b == a;
    } else {
      var n := |a + b| - 1;
      assert (a + b)[..n] == a + b[..|b| - 1] && (a + b)[n] == b[|b| - 1];
      PresentConcat(a, b[..|b| - 1]);
    }
  }

  lemma {:induction false} OneAtATimeConcat<A, R, C>(
    c: Reader<A, R, C>, a: seq<Result<A, C>>, b: seq<Result<A, C>>)
    ensures OneAtATime(c, a + b) == OneAtATime(c, a) + OneAtATime(c, b)
  {
    if b == [] {
      assert a + b == a;
    } else {
      var n := |a + b| - 1;
      assert (a + b)[..n] == a + b[..|b| - 1] && (a + b)[n] == b[|b| - 1];
      OneAtATimeConcat(c, a, b[..|b| - 1]);
    }
  }

  ghost function ErrorItems<A, R, C>(batch: seq<Result<A, C>>): seq<Item<R, C>> {
    Present(Errors(batch))
  }

  ghost function ReplyItems<A, R, C>(c: Reader<A, R, C>, batch: seq<Result<A, C>>): seq<Item<R, C>> {
    Present(Replies(c, batch))
  }

  lemma {:induction false} ItemsStep<A, R, C>(c: Reader<A, R, C>, front: seq<Result<A, C>>, last: Result<A, C>)
    ensures ErrorItems<A, R, C>(front + [last]) ==
            if last.Err? then ErrorItems<A, R, C>(front) + Yield(c, last) else ErrorItems<A, R, C>(front)
    ensures ReplyItems(c, front + [last]) ==
            if last.Ok? then ReplyItems(c, front) + Yield(c, last) else ReplyItems(c, front)
    ensures OneAtATime(c, front + [last]) == OneAtATime(c, front) + Yield(c, last)
  {
    assert (front + [last])[..|front|] == front;
    match last
    case Ok(parent) =>
      var replies, reply := Replies(c, front), Reply(c, parent);
      assert (replies + [reply])[..|replies|] == replies;
      EmptyUnit(Present(replies));
    case Err(cause) =>
      var errors := Errors<A, R, C>(front);
      assert (errors + [Some(Item<R, C>.Bare(cause))])[..|errors|] == errors;
  }

  lemma {:induction false} YieldKind<A, R, C>(
    c: Reader<A, R, C>, items: seq<Item<R, C>>, last: Result<A, C>, kind: Kind)
    ensures Only(kind, items + Yield(c, last)) == Only(kind, items) + Only(kind, Yield(c, last))
    ensures last.Err? && kind != ParseErrors ==> Only(kind, Yield(c, last)) == []
    ensures last.Ok? && kind == ParseErrors ==> Only(kind, Yield(c, last)) == []
  {
    OnlyConcat(kind, items, Yield(c, last));
    var tail := Yield(c, last);
    assert tail == [] || tail[..0] == [];
  }

  lemma {:induction false} OneKind<A, R, C>(c: Reader<A, R, C>, batch: seq<Result<A, C>>, kind: Kind)
    ensures Only(kind, ErrorItems<A, R, C>(batch)) ==
            if kind == ParseErrors then Only(kind, OneAtATime(c, batch)) else []
    ensures Only(kind, ReplyItems(c, batch)) ==
            if kind == ParseErrors then [] else Only(kind, OneAtATime(c, batch))
  {
    if batch != [] {
      var front, last := batch[..|batch| - 1], batch[|batch| - 1];
      assert batch == front + [last];
      OneKind(c, front, kind);
      ItemsStep(c, front, last);
      YieldKind(c, ErrorItems<A, R, C>(front), last, kind);
      YieldKind(c, ReplyItems(c, front), last, kind);
      YieldKind(c, OneAtATime(c, front), last, kind);
      EmptyUnit(Only(kind, Yield(c, last)));
      EmptyUnit(Only(kind, OneAtATime(c, front)));
    }
  }

  lemma {:induction false} BatchParts<A, R, C>(c: Reader<A, R, C>, batch: seq<Result<A, C>>)
    ensures BatchOutput(c, batch) == ErrorItems(batch) + ReplyItems(c, batch)
  {
    PresentConcat(Errors<A, R, C>(batch), Replies(c, batch));
  }

  /** A batch writes every parse error of the one-at-a-time map, then everything else, each in its own order. */
  lemma {:induction false} BatchKeepsKind<A, R, C>(c: Reader<A, R, C>, batch: seq<Result<A, C>>, kind: Kind)
    ensures Only(kind, BatchOutput(c, batch)) == Only(kind, OneAtATime(c, batch))
  {
    BatchParts(c, batch);
    OneKind(c, batch, kind);
    OnlyConcat(kind, ErrorItems<A, R, C>(batch), ReplyItems(c, batch));
    EmptyUnit(Only(kind, OneAtATime(c, batch)));
  }

  lemma {:induction false} KindOfHalves<R, C>(
    kind: Kind, a: seq<Item<R, C>>, b: seq<Item<R, C>>, x: seq<Item<R, C>>, y: seq<Item<R, C>>)
    requires Only(kind, a) == Only(kind, x) && Only(kind, b) == Only(kind, y)
    ensures Only(kind, a + b) == Only(kind, x + y)
  {
    OnlyConcat(kind, a, b);
    OnlyConcat(kind, x, y);
  }

  lemma {:induction false} BatchedHalves<A, R, C>(c: Reader<A, R, C>, size: nat, parents: seq<Result<A, C>>)
    requires 1 <= size < |parents|
    ensures Batched(c, size, parents) == BatchOutput(c, parents[..size]) + Batched(c, size, parents[size..])
    ensures OneAtATime(c, parents) == OneAtATime(c, parents[..size]) + OneAtATime(c, parents[size..])
  {
    OneAtATimeConcat(c, parents[..size], parents[size..]);
    assert parents[..size] + parents[size..] == parents;
  }

  lemma {:induction false} BatchedKeepsKind<A, R, C>(
    c: Reader<A, R, C>, size: nat, parents: seq<Result<A, C>>, kind: Kind)
    requires size >= 1
    ensures Only(kind, Batched(c, size, parents)) == Only(kind, OneAtATime(c, parents))
    decreases |parents|
  {
    if 0 < |parents| <= size {
      BatchKeepsKind(c, parents, kind);
    } else if |parents| > size {
      var a, b := parents[..size], parents[size..];
      BatchKeepsKind(c, a, kind);
      BatchedKeepsKind(c, size, b, kind);
      BatchedHalves(c, size, parents);
      KindOfHalves(kind, BatchOutput(c, a), Batched(c, size, b), OneAtATime(c, a), OneAtATime(c, b));
    }
  }

  /** For every fan-out the records come out in parent order exactly as one at a time, and parse errors and
      read errors each keep their relative order. */
  lemma {:induction false} BatchingRefines<A, R, C>(
    c: Reader<A, R, C>, fanOut: nat, parents: seq<Result<A, C>>, kind: Kind)
    ensures Only(kind, FilterMap(c, fanOut, parents)) == Only(kind, OneAtATime(c, parents))
  {
    BatchedKeepsKind(c, if fanOut < 1 then 1 else fanOut, parents, kind);
  }

  /** What an output holds of one kind, from the parents and their reads: the parse errors bare, the kept records as
      they are, and the read errors under their parents' names, each in parent order. */
  ghost function Expected<A, R, C>(c: Reader<A, R, C>, kind: Kind, parents: seq<Result<A, C>>): seq<Item<R, C>> {
    if parents == [] then []
    else
      var front, last := Expected(c, kind, parents[..|parents| - 1]), parents[|parents| - 1];
      if last.Err? then if kind == ParseErrors then front + [Bare(last.error)] else front
      else if c.read(last.value).Err? then
        if kind == ReadErrors then front + [Context(c.name(last.value), c.read(last.value).error)] else front
      else if c.read(last.value).value.Some? && kind == Rows then front + [Row(c.read(last.value).value.value)]
      else front
  }

  /** What one parent adds. */
  lemma {:induction false} ExpectedStep<A, R, C>(
    c: Reader<A, R, C>, kind: Kind, front: seq<Result<A, C>>, last: Result<A, C>)
    ensures Expected(c, kind, front + [last]) == Expected(c, kind, front) + Only(kind, Yield(c, last))
  {
    assert (front + [last])[..|front|] == front;
    EmptyUnit(Expected(c, kind, front));
    var tail := Yield(c, last);
    assert tail == [] || tail[..0] == [];
  }

  lemma {:induction false} ExpectedIs<A, R, C>(c: Reader<A, R, C>, kind: Kind, parents: seq<Result<A, C>>)
    ensures Only(kind, OneAtATime(c, parents)) == Expected(c, kind, parents)
  {
    if parents != [] {
      var front, last := parents[..|parents| - 1], parents[|parents| - 1];
      assert parents == front + [last];
      ExpectedIs(c, kind, front);
      ExpectedStep(c, kind, front, last);
      OnlyConcat(kind, OneAtATime(c, front), Yield(c, last));
      ItemsStep(c, front, last);
    }
  }

  /** For every fan-out an output holds exactly the records, the parse errors and the read errors its parents come to,
      each kind in parent order, and nothing of a parent that was filtered out. */
  lemma {:induction false} FilterMapIs<A, R, C>(
    c: Reader<A, R, C>, fanOut: nat, parents: seq<Result<A, C>>, kind: Kind)
    ensures Only(kind, FilterMap(c, fanOut, parents)) == Expected(c, kind, parents)
  {
    BatchingRefines(c, fanOut, parents, kind);
    ExpectedIs(c, kind, parents);
  }

  ghost predicate AllRead<A, R, C>(c: Reader<A, R, C>, parents: seq<Result<A, C>>) {
    forall k :: 0 <= k < |parents| ==> parents[k].Ok? && c.read(parents[k].value).Ok?
  }

  lemma {:induction false} NothingExpected<A, R, C>(c: Reader<A, R, C>, parents: seq<Result<A, C>>)
    ensures Expected(c, ParseErrors, parents) == [] && Expected(c, ReadErrors, parents) == [] <==> AllRead(c, parents)
  {
    if parents != [] {
      var front, last := parents[..|parents| - 1], parents[|parents| - 1];
      NothingExpected(c, front);
      assert forall k :: 0 <= k < |front| ==> front[k] == parents[k];
    }
  }

  // ----- exactly when nothing moves -----

  /** The read fails, or keeps a record. */
  predicate Yields<A, R, C>(c: Reader<A, R, C>, parent: A) {
    c.read(parent).Err? || c.read(parent).value.Some?
  }

  /** No parse error follows a parent of the same batch that yields something. */
  ghost predicate ErrorsLead<A, R, C>(c: Reader<A, R, C>, batch: seq<Result<A, C>>) {
    forall i, j :: 0 <= i < j < |batch| && batch[j].Err? && batch[i].Ok? ==> !Yields(c, batch[i].value)
  }

  ghost predicate ErrorsLeadBatches<A, R, C>(c: Reader<A, R, C>, size: nat, parents: seq<Result<A, C>>)
    requires size >= 1
    decreases |parents|
  {
    if |parents| <= size then ErrorsLead(c, parents)
    else ErrorsLead(c, parents[..size]) && ErrorsLeadBatches(c, size, parents[size..])
  }

  lemma {:induction false} LengthByKind<R, C>(items: seq<Item<R, C>>)
    ensures |items| == |Only(Rows, items)| + |Only(ParseErrors, items)| + |Only(ReadErrors, items)|
  {
    if items != [] {
      LengthByKind(items[..|items| - 1]);
    }
  }

  lemma {:induction false} BatchLength<A, R, C>(c: Reader<A, R, C>, batch: seq<Result<A, C>>)
    ensures |BatchOutput(c, batch)| == |OneAtATime(c, batch)|
  {
    LengthByKind(BatchOutput(c, batch));
    LengthByKind(OneAtATime(c, batch));
    BatchKeepsKind(c, batch, Rows);
    BatchKeepsKind(c, batch, ParseErrors);
    BatchKeepsKind(c, batch, ReadErrors);
  }

  lemma {:induction false} NoReplies<A, R, C>(c: Reader<A, R, C>, batch: seq<Result<A, C>>)
    requires forall k :: 0 <= k < |batch| && batch[k].Ok? ==> !Yields(c, batch[k].value)
    ensures ReplyItems(c, batch) == []
  {
    if batch != [] {
      var front, last := batch[..|batch| - 1], batch[|batch| - 1];
      assert batch == front + [last];
      NoReplies(c, front);
      ItemsStep(c, front, last);
    }
  }

  lemma {:induction false} SomeReply<A, R, C>(c: Reader<A, R, C>, batch: seq<Result<A, C>>, i: nat)
    requires i < |batch| && batch[i].Ok? && Yields(c, batch[i].value)
    ensures ReplyItems(c, batch) != []
  {
    var front, last := batch[..|batch| - 1], batch[|batch| - 1];
    assert batch == front + [last];
    ItemsStep(c, front, last);
    if i < |front| {
      SomeReply(c, front, i);
    }
  }

  lemma {:induction false} RepliesAreNotBare<A, R, C>(c: Reader<A, R, C>, batch: seq<Result<A, C>>)
    ensures forall k :: 0 <= k < |ReplyItems(c, batch)| ==> !ReplyItems(c, batch)[k].Bare?
  {
    if batch != [] {
      var front, last := batch[..|batch| - 1], batch[|batch| - 1];
      assert batch == front + [last];
      RepliesAreNotBare(c, front);
      ItemsStep(c, front, last);
    }
  }

  lemma {:induction false} LastOfConcat<T>(a: seq<T>, b: seq<T>, x: seq<T>, y: T)
    requires b != [] && a + b == x + [y]
    ensures b[|b| - 1] == y
  {
    assert (a + b)[|a + b| - 1] == b[|b| - 1];
    assert (x + [y])[|x|] == y;
  }

  lemma {:induction false} ErrorsLeadFront<A, R, C>(c: Reader<A, R, C>, front: seq<Result<A, C>>, last: Result<A, C>)
    ensures ErrorsLead(c, front + [last]) <==>
            ErrorsLead(c, front) && (last.Err? ==>
              forall i :: 0 <= i < |front| && front[i].Ok? ==> !Yields(c, front[i].value))
  {
    var batch := front + [last];
    assert forall k :: 0 <= k < |front| ==> batch[k] == front[k];
    assert batch[|front|] == last;
  }

  lemma {:induction false} ErrorAfterReply<A, R, C>(
    c: Reader<A, R, C>, front: seq<Result<A, C>>, error: Item<R, C>, i: nat)
    requires i < |front| && front[i].Ok? && Yields(c, front[i].value) && error.Bare?
    ensures (ErrorItems<A, R, C>(front) + [error]) + ReplyItems(c, front) != OneAtATime(c, front) + [error]
  {
    SomeReply(c, front, i);
    RepliesAreNotBare(c, front);
    var a, b := ErrorItems<A, R, C>(front) + [error], ReplyItems(c, front);
    if a + b == OneAtATime(c, front) + [error] {
      LastOfConcat(a, b, OneAtATime(c, front), error);
      assert false;
    }
  }

  lemma {:induction false} BatchOfReply<A, R, C>(c: Reader<A, R, C>, front: seq<Result<A, C>>, last: Result<A, C>)
    requires last.Ok? || ReplyItems(c, front) == []
    ensures BatchOutput(c, front + [last]) == BatchOutput(c, front) + Yield(c, last)
  {
    BatchParts(c, front);
    BatchParts(c, front + [last]);
    ItemsStep(c, front, last);
    var e, r, y := ErrorItems<A, R, C>(front), ReplyItems(c, front), Yield(c, last);
    if last.Ok? {
      Associate(e, r, y);
    } else {
      EmptyUnit(e);
      EmptyUnit(e + y);
    }
  }

  /** A batch keeps the one-at-a-time order exactly when its parse errors lead. */
  lemma {:induction false} BatchInOrderIff<A, R, C>(c: Reader<A, R, C>, batch: seq<Result<A, C>>)
    ensures BatchOutput(c, batch) == OneAtATime(c, batch) <==> ErrorsLead(c, batch)
  {
    if batch != [] {
      var front, last := batch[..|batch| - 1], batch[|batch| - 1];
      assert batch == front + [last];
      BatchInOrderIff(c, front);
      ItemsStep(c, front, last);
      ErrorsLeadFront(c, front, last);
      if last.Err? && exists i :: 0 <= i < |front| && front[i].Ok? && Yields(c, front[i].value) {
        var i :| 0 <= i < |front| && front[i].Ok? && Yields(c, front[i].value);
        ErrorAfterReply(c, front, Yield(c, last)[0], i);
        BatchParts(c, batch);
      } else {
        if last.Err? {
          NoReplies(c, front);
        }
        BatchOfReply(c, front, last);
        BatchLength(c, front);
        SameTail(BatchOutput(c, front), OneAtATime(c, front), Yield(c, last));
      }
    }
  }

  lemma {:induction false} SameTail<T>(a: seq<T>, b: seq<T>, tail: seq<T>)
    requires |a| == |b|
    ensures a + tail == b + tail <==> a == b
  {
    if a + tail == b + tail {
      assert a == (a + tail)[..|a|] && b == (b + tail)[..|b|];
    }
  }

  lemma {:induction false} BatchedInOrderIff<A, R, C>(c: Reader<A, R, C>, size: nat, parents: seq<Result<A, C>>)
    requires size >= 1
    ensures Batched(c, size, parents) == OneAtATime(c, parents) <==> ErrorsLeadBatches(c, size, parents)
    decreases |parents|
  {
    if 0 < |parents| <= size {
      BatchInOrderIff(c, parents);
    } else if |parents| > size {
      var a, b := parents[..size], parents[size..];
      BatchInOrderIff(c, a);
      BatchedInOrderIff(c, size, b);
      BatchedHalves(c, size, parents);
      BatchLength(c, a);
      SameHalves(BatchOutput(c, a), Batched(c, size, b), OneAtATime(c, a), OneAtATime(c, b));
    }
  }

  lemma {:induction false} SameHalves<T>(a: seq<T>, b: seq<T>, x: seq<T>, y: seq<T>)
    requires |a| == |x|
    ensures a + b == x + y <==> a == x && b == y
  {
    if a + b == x + y {
      assert a == (a + b)[..|a|] && b == (a + b)[|a|..];
      assert x == (x + y)[..|x|] && y == (x + y)[|x|..];
    }
  }

  /** Parent `j` did not parse, and parent `i` before it in the same batch, the `b`-th of `size`, yields something. */
  ghost predicate Overtakes<A, R, C>(
    c: Reader<A, R, C>, size: nat, parents: seq<Result<A, C>>, b: nat, i: nat, j: nat)
  {
    && b * size <= i < j < b * size + size && j < |parents|
    && parents[j].Err? && parents[i].Ok? && Yields(c, parents[i].value)
  }

  ghost predicate AnyOvertakes<A, R, C>(c: Reader<A, R, C>, size: nat, parents: seq<Result<A, C>>) {
    exists b: nat, i: nat, j: nat :: Overtakes(c, size, parents, b, i, j)
  }

  lemma {:induction false} HeadLeadsIff<A, R, C>(c: Reader<A, R, C>, head: seq<Result<A, C>>, size: nat)
    requires |head| <= size
    ensures ErrorsLead(c, head) <==> !AnyOvertakes(c, size, head)
  {
    if !ErrorsLead(c, head) {
      var i: nat, j: nat :| i < j < |head| && head[j].Err? && head[i].Ok? && Yields(c, head[i].value);
      assert Overtakes(c, size, head, 0, i, j);
    }
  }

  /** A batch later stands one batch earlier behind the first. */
  lemma {:induction false} TailOvertakes<A, R, C>(
    c: Reader<A, R, C>, size: nat, parents: seq<Result<A, C>>, b: nat, i: nat, j: nat)
    requires 1 <= size < |parents|
    ensures Overtakes(c, size, parents[size..], b, i, j) <==> Overtakes(c, size, parents, b + 1, i + size, j + size)
  {
    assert (b + 1) * size == b * size + size;
  }

  lemma {:induction false} HeadOvertakes<A, R, C>(
    c: Reader<A, R, C>, size: nat, parents: seq<Result<A, C>>, i: nat, j: nat)
    requires 1 <= size < |parents|
    ensures Overtakes(c, size, parents[..size], 0, i, j) <==> Overtakes(c, size, parents, 0, i, j)
  {
  }

  lemma {:induction false} OvertakesIff<A, R, C>(c: Reader<A, R, C>, size: nat, parents: seq<Result<A, C>>)
    requires 1 <= size < |parents|
    ensures AnyOvertakes(c, size, parents) <==>
            AnyOvertakes(c, size, parents[..size]) || AnyOvertakes(c, size, parents[size..])
  {
    if b: nat, i: nat, j: nat :| Overtakes(c, size, parents, b, i, j) {
      if b == 0 {
        HeadOvertakes(c, size, parents, i, j);
      } else {
        assert b * size == (b - 1) * size + size;
        TailOvertakes(c, size, parents, b - 1, i - size, j - size);
      }
    }
    if b: nat, i: nat, j: nat :| Overtakes(c, size, parents[..size], b, i, j) {
      HeadOvertakes(c, size, parents, i, j);
      InFirst(size, b, i);
    }
    if b: nat, i: nat, j: nat :| Overtakes(c, size, parents[size..], b, i, j) {
      TailOvertakes(c, size, parents, b, i, j);
    }
  }

  lemma {:induction false} InFirst(size: nat, b: nat, i: nat)
    requires b * size <= i < size
    ensures b == 0
  {
  }

  lemma {:induction false} LeadBatchesIff<A, R, C>(c: Reader<A, R, C>, size: nat, parents: seq<Result<A, C>>)
    requires size >= 1
    ensures ErrorsLeadBatches(c, size, parents) <==> !AnyOvertakes(c, size, parents)
    decreases |parents|
  {
    if |parents| <= size {
      HeadLeadsIff(c, parents, size);
    } else {
      HeadLeadsIff(c, parents[..size], size);
      LeadBatchesIff(c, size, parents[size..]);
      OvertakesIff(c, size, parents);
    }
  }

  /** The whole output is the one-at-a-time output exactly when no parse error follows a parent of its own batch that
      yields something; in particular a fan-out of one is the sequential run. */
  lemma {:induction false} IdenticalIff<A, R, C>(c: Reader<A, R, C>, fanOut: nat, parents: seq<Result<A, C>>)
    ensures FilterMap(c, fanOut, parents) == OneAtATime(c, parents) <==>
            fanOut <= 1 || !AnyOvertakes(c, fanOut, parents)
  {
    var size := if fanOut < 1 then 1 else fanOut;
    BatchedInOrderIff(c, size, parents);
    LeadBatchesIff(c, size, parents);
  }

  /** Where it fails: with a fan-out of two, a parent that yields a row and a parse error behind it come out the other
      way round. */
  lemma {:induction false} ErrorOvertakesRow<A, R, C>(c: Reader<A, R, C>, p: A, row: R, cause: C)
    requires c.read(p) == Ok(Some(row))
    ensures OneAtATime(c, [Ok(p), Err(cause)]) == [Row(row), Bare(cause)]
    ensures FilterMap(c, 2, [Ok(p), Err(cause)]) == [Bare(cause), Row(row)]
  {
    var none: seq<Result<A, C>>, one: seq<Result<A, C>>, parents: seq<Result<A, C>> := [], [Ok(p)], [Ok(p), Err(cause)];
    assert none + [Ok(p)] == one && one + [Err(cause)] == parents;
    ItemsStep(c, none, Ok(p));
    ItemsStep(c, one, Err(cause));
    BatchParts(c, parents);
  }

  // ----- the sink -----

  /** The failures of an output, in order. */
  function Failures<R, C>(items: seq<Item<R, C>>): seq<Item<R, C>> {
    if items == [] then []
    else
      var front, last := Failures(items[..|items| - 1]), items[|items| - 1];
      if last.Row? then front else front + [last]
  }

  /** Write every record, report every failure, and fail the run when any was reported. */
  method Drive<R, C>(rows: seq<Item<R, C>>) returns (written: seq<Item<R, C>>, reported: seq<Item<R, C>>, ok: bool)
    ensures written == Only(Rows, rows) && reported == Failures(rows)
    ensures |reported| + |written| == |rows|
    ensures Only(ParseErrors, reported) == Only(ParseErrors, rows)
    ensures Only(ReadErrors, reported) == Only(ReadErrors, rows)
    ensures ok <==> Only(ParseErrors, rows) == [] && Only(ReadErrors, rows) == []
  {
    written, reported := [], [];
    var dropped := 0;
    for k := 0 to |rows|
      invariant written == Only(Rows, rows[..k]) && reported == Failures(rows[..k])
      invariant |written| + |reported| == k && dropped == |reported|
      invariant Only(ParseErrors, reported) == Only(ParseErrors, rows[..k])
      invariant Only(ReadErrors, reported) == Only(ReadErrors, rows[..k])
      invariant Only(Rows, reported) == []
    {
      assert rows[..k + 1][..k] == rows[..k];
      if rows[k].Row? {
        written := written + [rows[k]];
      } else {
        assert (reported + [rows[k]])[..|reported|] == reported;
        reported := reported + [rows[k]];
        dropped := dropped + 1;
      }
    }
    assert rows[..|rows|] == rows;
    LengthByKind(reported);
    ok := dropped == 0;
  }

  /** The command: filter and map, then drive. It writes every kept record in parent order, and succeeds exactly when
      every parent parsed and every read did. */
  method RunFilterMap<A, R, C>(c: Reader<A, R, C>, fanOut: nat, parents: seq<Result<A, C>>)
    returns (written: seq<Item<R, C>>, reported: seq<Item<R, C>>, ok: bool)
    ensures written == Expected(c, Rows, parents)
    ensures Only(ParseErrors, reported) == Expected(c, ParseErrors, parents)
    ensures Only(ReadErrors, reported) == Expected(c, ReadErrors, parents)
    ensures ok <==> AllRead(c, parents)
  {
    written, reported, ok := Drive(FilterMap(c, fanOut, parents));
    FilterMapIs(c, fanOut, parents, Rows);
    FilterMapIs(c, fanOut, parents, ParseErrors);
    FilterMapIs(c, fanOut, parents, ReadErrors);
    NothingExpected(c, parents);
  }

  /** A run's exit status, and how much it writes and reports, do not depend on the fan-out. */
  lemma {:induction false} StatusIgnoresFanOut<A, R, C>(
    c: Reader<A, R, C>, a: nat, b: nat, parents: seq<Result<A, C>>)
    ensures forall kind :: Only(kind, FilterMap(c, a, parents)) == Only(kind, FilterMap(c, b, parents))
    ensures |FilterMap(c, a, parents)| == |FilterMap(c, b, parents)|
  {
    forall kind ensures Only(kind, FilterMap(c, a, parents)) == Only(kind, FilterMap(c, b, parents)) {
      BatchingRefines(c, a, parents, kind);
      BatchingRefines(c, b, parents, kind);
    }
    LengthByKind(FilterMap(c, a, parents));
    LengthByKind(FilterMap(c, b, parents));
  }
}
