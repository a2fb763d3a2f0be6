/**
 RPC messages of kernel/kern/rpc.c: the header, then the table of argument sizes, then
 the arguments, each padded to the word size.  The padding and the header are left as
 they were.
 */
module RpcMarshal {

  import opened ModArith
  import opened Words

  const HEADER: nat := 36        // sizeof(struct rpc_s)
  const ALIGN: nat := 4          // RPC_ALIGN
  const ON_STACK: nat := 2048    // RPC_ALLOCATE_ON_STACK_SZ

  /** ARROUND_UP to the word size. */
  function Up(n: nat): nat { RoundUp(n, ALIGN) }

  /** The room that the first `k` arguments take. */
  function Room(args: seq<seq<Byte>>, k: nat): nat
    requires k <= |args|
  {
    if k == 0 then 0 else Room(args, k - 1) + Up(|args[k - 1]|)
  }

  function Offset(args: seq<seq<Byte>>, k: nat): nat
    requires k <= |args|
  {
    HEADER + 4 * |args| + Room(args, k)
  }

  /** The argument areas follow each other, after the table. */
  lemma {:induction false} Apart(args: seq<seq<Byte>>, i: nat, k: nat)
    requires i < k <= |args|
    ensures HEADER + 4 * |args| <= Offset(args, i)
    ensures Offset(args, i) + |args[i]| <= Offset(args, i) + Up(|args[i]|) <= Offset(args, k)
  {
    if i < k - 1 { Apart(args, i, k - 1); }
  }

  // ----- What a message holds -----

  predicate TableHolds(msg: seq<Byte>, args: seq<seq<Byte>>, k: nat)
    requires k <= |args|
  {
    && HEADER + 4 * |args| <= |msg|
    && forall i | 0 <= i < k :: Value(msg, HEADER + 4 * i) == |args[i]|
  }

  predicate ArgHolds(msg: seq<Byte>, args: seq<seq<Byte>>, i: nat)
    requires i < |args|
  {
    && Offset(args, i) + |args[i]| <= |msg|
    && msg[Offset(args, i)..Offset(args, i) + |args[i]|] == args[i]
  }

  /** The first `k` arguments are in place. */
  predicate ArgsHold(msg: seq<Byte>, args: seq<seq<Byte>>, k: nat)
    requires k <= |args|
  {
    forall j | 0 <= j < k :: ArgHolds(msg, args, j)
  }

  predicate Holds(msg: seq<Byte>, args: seq<seq<Byte>>) {
    TableHolds(msg, args, |args|) && ArgsHold(msg, args, |args|)
  }

  /** What lies below stays when something is written above. */
  predicate SameBelow(msg: seq<Byte>, msg': seq<Byte>, n: nat) {
    n <= |msg| && |msg'| == |msg| && msg[..n] == msg'[..n]
  }

  lemma {:induction false} TableStays(msg: seq<Byte>, msg': seq<Byte>, args: seq<seq<Byte>>, k: nat, n: nat)
    requires k <= |args| && TableHolds(msg, args, k) && SameBelow(msg, msg', n) && HEADER + 4 * k <= n
    ensures TableHolds(msg', args, k)
  {
    forall i | 0 <= i < k ensures Value(msg', HEADER + 4 * i) == |args[i]| {
      var at := HEADER + 4 * i;
      assert Value(msg, at) == |args[i]|;
      assert forall j | 0 <= j < n :: msg'[j] == msg'[..n][j] == msg[j];
    }
  }

  lemma {:induction false} ArgStays(msg: seq<Byte>, msg': seq<Byte>, args: seq<seq<Byte>>, i: nat, n: nat)
    requires i < |args| && ArgHolds(msg, args, i) && SameBelow(msg, msg', n)
    requires Offset(args, i) + |args[i]| <= n
    ensures ArgHolds(msg', args, i)
  {
    var a, b := Offset(args, i), Offset(args, i) + |args[i]|;
    hide Offset;
    assert msg'[..n][a..b] == msg'[a..b];
    assert msg[..n][a..b] == msg[a..b];
  }

  // ----- rppc_generic -----

  /** memcpy */
  method Copy(buffer: array<Byte>, at: nat, data: seq<Byte>)
    requires at + |data| <= buffer.Length
    modifies buffer
    ensures buffer[at..at + |data|] == data
    ensures SameBelow(old(buffer[..]), buffer[..], at)
  {
    forall k | 0 <= k < |data| {
      buffer[at + k] := data[k];
    }
    assert old(buffer[..])[..at] == buffer[..][..at];
  }

  /** The size of a message with such arguments. */
  function Needs(sizes: seq<nat>): nat { HEADER + 4 * |sizes| + Sum(sizes, |sizes|) }

  /** The computed size, in 32 bits. */
  method SizeOf(sizes: seq<nat>) returns (size: Word)
    requires forall i | 0 <= i < |sizes| :: sizes[i] < WORD
    ensures size == Needs(sizes) % WORD
  {
    size := HEADER;
    var i := 0;
    while i < |sizes|
      invariant 0 <= i <= |sizes| && size == (HEADER + 4 * i + Sum(sizes, i)) % WORD
    {
      WordAdd(Up(sizes[i]), 4);
      WordAdd(HEADER + 4 * i + Sum(sizes, i), (Up(sizes[i]) + 4) % WORD);
      WordAdd(Up(sizes[i]) + 4, HEADER + 4 * i + Sum(sizes, i));
      size := (size + (Up(sizes[i]) % WORD + 4) % WORD) % WORD;
      i := i + 1;
    }
  }

  function Sum(sizes: seq<nat>, k: nat): nat
    requires k <= |sizes|
  {
    if k == 0 then 0 else Sum(sizes, k - 1) + Up(sizes[k - 1])
  }

  function Sizes(args: seq<seq<Byte>>): seq<nat> { seq(|args|, i requires 0 <= i < |args| => |args[i]|) }

  lemma {:induction false} SumIsRoom(args: seq<seq<Byte>>, k: nat)
    requires k <= |args|
    ensures Sum(Sizes(args), k) == Room(args, k)
  {
    if k > 0 { SumIsRoom(args, k - 1); }
  }

  lemma {:induction false} TableGrows(msg: seq<Byte>, msg': seq<Byte>, args: seq<seq<Byte>>, k: nat)
    requires k < |args| && |args[k]| < WORD && TableHolds(msg, args, k) && SameBelow(msg, msg', HEADER + 4 * k)
    requires msg'[HEADER + 4 * k..HEADER + 4 * k + 4] == Bytes(|args[k]|)
    ensures TableHolds(msg', args, k + 1)
  {
    hide Value, Bytes;
    TableStays(msg, msg', args, k, HEADER + 4 * k);
    ValueOfBytes(|args[k]|, msg', HEADER + 4 * k);
  }

  method WriteTable(buffer: array<Byte>, args: seq<seq<Byte>>)
    requires HEADER + 4 * |args| <= buffer.Length && forall i | 0 <= i < |args| :: |args[i]| < WORD
    modifies buffer
    ensures TableHolds(buffer[..], args, |args|)
  {
    var i := 0;
    while i < |args|
      invariant 0 <= i <= |args| && TableHolds(buffer[..], args, i)
    {
      hide TableHolds, SameBelow, Bytes;
      ghost var was := buffer[..];
      Copy(buffer, HEADER + 4 * i, Bytes(|args[i]|));
      TableGrows(was, buffer[..], args, i);
      i := i + 1;
    }
  }

  lemma {:induction false} ArgsGrow(msg: seq<Byte>, msg': seq<Byte>, args: seq<seq<Byte>>, k: nat)
    requires k < |args| && ArgsHold(msg, args, k) && SameBelow(msg, msg', Offset(args, k))
    requires ArgHolds(msg', args, k)
    ensures ArgsHold(msg', args, k + 1)
  {
    forall j | 0 <= j < k ensures ArgHolds(msg', args, j) {
      Apart(args, j, k);
      ArgStays(msg, msg', args, j, Offset(args, k));
    }
  }

  method WriteArgs(buffer: array<Byte>, args: seq<seq<Byte>>) returns (end: nat)
    requires Offset(args, |args|) <= buffer.Length && TableHolds(buffer[..], args, |args|)
    modifies buffer
    ensures Holds(buffer[..], args) && end == Offset(args, |args|)
  {
    var i := 0;
    end := HEADER + 4 * |args|;
    while i < |args|
      invariant 0 <= i <= |args| && end == Offset(args, i) && TableHolds(buffer[..], args, |args|)
      invariant ArgsHold(buffer[..], args, i)
    {
      hide TableHolds, ArgsHold, SameBelow;
      Apart(args, i, |args|);
      ghost var was := buffer[..];
      Copy(buffer, end, args[i]);
      TableStays(was, buffer[..], args, |args|, end);
      assert ArgHolds(buffer[..], args, i);
      ArgsGrow(was, buffer[..], args, i);
      end := end + Up(|args[i]|);
      i := i + 1;
    }
  }

  method Fill(args: seq<seq<Byte>>, room: nat) returns (buffer: array<Byte>)
    requires Fits(args, room) && forall i | 0 <= i < |args| :: |args[i]| < WORD
    ensures fresh(buffer) && buffer.Length == room && Holds(buffer[..Offset(args, |args|)], args)
  {
    hide Room, Holds, TableHolds;
    buffer := new Byte[room];
    WriteTable(buffer, args);
    var end := WriteArgs(buffer, args);
    Shorter(buffer[..], args);
    assert buffer[..][..end] == buffer[..end];
  }

  /** Overrun: the writes leave the buffer, and what happens then is undefined. */
  datatype Sent = Stuck | Overrun | Message(buffer: array<Byte>, size: nat, argsNb: Byte)

  /**
   rppc_generic up to the send.  One buffer serves for the request and the response; a
   buffer over the stack limit is never allocated and the call never returns.
   */
  method Marshal(args: seq<seq<Byte>>, rets: seq<nat>) returns (r: Sent)
    requires (forall i | 0 <= i < |args| :: |args[i]| < WORD) && (forall i | 0 <= i < |rets| :: rets[i] < WORD)
    ensures r.Stuck? <==> Offset(args, |args|) % WORD > ON_STACK || Needs(rets) % WORD > ON_STACK
    ensures r.Overrun? <==> !r.Stuck? && Offset(args, |args|) >= WORD
    ensures r.Message? ==> fresh(r.buffer) && r.argsNb == |args| % 256
    ensures r.Message? ==> r.size == Offset(args, |args|) <= r.buffer.Length && Holds(r.buffer[..r.size], args)
  {
    hide Room, Sum, Up, Holds, TableHolds;
    SumIsRoom(args, |args|);
    var size := SizeOf(Sizes(args));
    var retSize := SizeOf(rets);
    var room: nat := if size > retSize then size else retSize;
    if room > ON_STACK { return Stuck; }
    if Fits(args, room) {
      var buffer := Fill(args, room);
      r := Message(buffer, size, |args| % 256);
    } else {
      r := Overrun;
    }
  }

  predicate Fits(args: seq<seq<Byte>>, room: nat) { Offset(args, |args|) <= room }

  /** Everything lies within the computed size. */
  lemma {:induction false} Shorter(msg: seq<Byte>, args: seq<seq<Byte>>)
    requires Holds(msg, args) && Offset(args, |args|) <= |msg|
    ensures Holds(msg[..Offset(args, |args|)], args)
  {
    var n := Offset(args, |args|);
    var cut := msg[..n];
    if |args| > 0 { Apart(args, 0, |args|); }
    forall i | 0 <= i < |args| ensures Value(cut, HEADER + 4 * i) == |args[i]| {
      assert Value(msg, HEADER + 4 * i) == |args[i]|;
    }
    forall i | 0 <= i < |args| ensures ArgHolds(cut, args, i) {
      Apart(args, i, |args|);
      assert ArgHolds(msg, args, i);
      assert cut[Offset(args, i)..Offset(args, i) + |args[i]|] == msg[Offset(args, i)..Offset(args, i) + |args[i]|];
    }
  }

  // ----- rpc_get_arg, rpc_get_arg_sz -----

  datatype Arg = Hang | Nothing | At(offset: nat, size: nat)

  /** What a handler that asks for argument `k` should be given. */
  predicate Delivers(msg: seq<Byte>, a: Arg, data: seq<Byte>) {
    match a
    case Hang => false
    case Nothing => data == []
    case At(offset, size) => data != [] && size == |data| && offset + size <= |msg| && msg[offset..offset + size] == data
  }

  /** The sum of the padded sizes in the table. */
  function Skip(msg: seq<Byte>, k: nat): nat
    requires HEADER + 4 * k <= |msg|
  {
    if k == 0 then 0 else Skip(msg, k - 1) + Up(Value(msg, HEADER + 4 * (k - 1)))
  }

  /** rpc_get_arg with rpc_get_arg_sz: both spin for an argument the header does not count. */
  function Fetched(msg: seq<Byte>, argsNb: nat, k: nat): Arg
    requires HEADER + 4 * argsNb <= |msg|
  {
    if k >= argsNb then Hang
    else if Value(msg, HEADER + 4 * k) == 0 then Nothing
    else At(HEADER + 4 * argsNb + Skip(msg, k), Value(msg, HEADER + 4 * k))
  }

  method GetArg(msg: seq<Byte>, argsNb: nat, k: nat) returns (a: Arg)
    requires HEADER + 4 * argsNb <= |msg|
    ensures a == Fetched(msg, argsNb, k)
  {
    if k >= argsNb { return Hang; }
    if Value(msg, HEADER + 4 * k) == 0 { return Nothing; }
    var i, at := 0, HEADER + 4 * argsNb;
    while i < k
      invariant 0 <= i <= k && at == HEADER + 4 * argsNb + Skip(msg, i)
    {
      at := at + Up(Value(msg, HEADER + 4 * i));
      i := i + 1;
    }
    a := At(at, Value(msg, HEADER + 4 * k));
  }

  lemma {:induction false} SkipIsRoom(msg: seq<Byte>, args: seq<seq<Byte>>, k: nat)
    requires k <= |args| && TableHolds(msg, args, |args|)
    ensures Skip(msg, k) == Room(args, k)
  {
    if k > 0 { SkipIsRoom(msg, args, k - 1); }
  }

  /** Every argument comes back, exactly when the count fits the byte in the header. */
  lemma {:induction false} RoundTrip(msg: seq<Byte>, args: seq<seq<Byte>>)
    requires Holds(msg, args)
    ensures (forall k | 0 <= k < |args| :: Delivers(msg, Fetched(msg, |args| % 256, k), args[k])) <==> |args| < 256
  {
    if |args| < 256 {
      forall k | 0 <= k < |args| ensures Delivers(msg, Fetched(msg, |args| % 256, k), args[k]) {
        SkipIsRoom(msg, args, k);
        assert ArgHolds(msg, args, k);
      }
    } else {
      assert Fetched(msg, |args| % 256, |args| - 1) == Hang;
    }
  }

  /** Such a call passes the size test: 256 empty arguments fit the stack buffer and none can be fetched. */
  lemma {:induction false} TooManyArguments(args: seq<seq<Byte>>, msg: seq<Byte>, k: nat)
    requires |args| == 256 && (forall i | 0 <= i < |args| :: args[i] == []) && Holds(msg, args)
    ensures Offset(args, |args|) <= ON_STACK && Fetched(msg, |args| % 256, k) == Hang
  {
    EmptyRoom(args, |args|);
  }

  lemma {:induction false} EmptyRoom(args: seq<seq<Byte>>, k: nat)
    requires k <= |args| && forall i | 0 <= i < |args| :: args[i] == []
    ensures Room(args, k) == 0
  {
    if k > 0 { EmptyRoom(args, k - 1); }
  }
}
