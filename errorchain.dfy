/**
 * Go error values as the batch layer builds them, and the buffered error
 * channel its workers report into (pkg/internal/db/tables/test.go).
 *
 * A chunk error is whatever the marshaller or the store returned (`Leaf`).
 * The drain loop folds received errors with `fmt.Errorf("%w; %v", finalErr, err)`,
 * which keeps `finalErr` as the wrapped error and only the text of `err`.
 */
module ErrorChain {
  import opened Wrappers
  import Text

  /** Separator that `"%w; %v"` puts between two messages. */
  const Separator: string := "; "

  datatype Error =
    | Leaf(msg: string)
    | Wrapped(inner: Error, detail: string)

  /** `err.Error()`: `%w` prints the wrapped error's text, `%v` the other's. */
  function Message(e: Error): string
  {
    match e
    case Leaf(m) => m
    case Wrapped(inner, detail) => Message(inner) + Separator + detail
  }

  /** `errors.Unwrap`. */
  function Unwrap(e: Error): Option<Error>
  {
    match e
    case Leaf(_) => None
    case Wrapped(inner, _) => Some(inner)
  }

  /** `errors.Is` for errors compared by value: `target` is `e` or somewhere down its unwrap chain. */
  predicate Is(e: Error, target: Error)
  {
    e == target || (e.Wrapped? && Is(e.inner, target))
  }

  /** One step of the drain loop (test.go:160-166 and 218-224). */
  function Fold(finalErr: Option<Error>, err: Error): Error
  {
    match finalErr
    case None => err
    case Some(prev) => Wrapped(prev, Message(err))
  }

  /** The error the drain loop leaves after receiving `errs`, in that order. */
  function Chain(errs: seq<Error>): Option<Error>
  {
    if |errs| == 0 then None
    else Some(Fold(Chain(errs[..|errs| - 1]), errs[|errs| - 1]))
  }

  function Messages(errs: seq<Error>): (ms: seq<string>)
    ensures |ms| == |errs| && forall i :: 0 <= i < |errs| ==> ms[i] == Message(errs[i])
  {
    seq(|errs|, i requires 0 <= i < |errs| => Message(errs[i]))
  }

  /** The aggregate error is nil exactly when no error was received. */
  lemma ChainNilIff(errs: seq<Error>)
    ensures Chain(errs) == None <==> |errs| == 0
  {
  }

  /** Its text is the received errors' texts joined by "; ", in receive order. */
  lemma {:induction false} ChainMessage(errs: seq<Error>)
    requires |errs| > 0
    ensures Message(Chain(errs).value) == Text.Join(Messages(errs), Separator)
  {
    var n := |errs|;
    if n > 1 {
      var init := errs[..n - 1];
      ChainMessage(init);
      assert Messages(errs) == Messages(init) + [Message(errs[n - 1])];
      Text.JoinSnoc(Messages(init), Message(errs[n - 1]), Separator);
    }
  }

  /** Unwraps `e` `k` times, if it can. */
  function UnwrapN(e: Error, k: nat): Option<Error>
  {
    if k == 0 then Some(e)
    else match Unwrap(e)
      case None => None
      case Some(inner) => UnwrapN(inner, k - 1)
  }

  /**
   * Only the first received error is wrapped with `%w`: it sits |errs| - 1
   * unwraps down, so `errors.Is(finalErr, errs[0])` holds.
   */
  lemma {:induction false} ChainWrapsFirst(errs: seq<Error>)
    requires |errs| > 0
    ensures UnwrapN(Chain(errs).value, |errs| - 1) == Some(errs[0])
    ensures Is(Chain(errs).value, errs[0])
  {
    var n := |errs|;
    if n > 1 {
      var init := errs[..n - 1];
      ChainWrapsFirst(init);
      assert init[0] == errs[0];
    }
  }

  /**
   * A Go channel of errors created with `make(chan error, capacity)`. A send on
   * a full channel would block; here every worker sends before anyone
   * receives, so `Send` demands room, and a send after `close` panics in Go.
   */
  class ErrorChannel {
    const capacity: nat
    var buffered: seq<Error>
    var closed: bool

    ghost predicate Valid()
      reads this
    {
      |buffered| <= capacity
    }

    constructor (capacity: nat)
      ensures Valid()
      ensures this.capacity == capacity && buffered == [] && !closed
    {
      this.capacity := capacity;
      buffered := [];
      closed := false;
    }

    method Send(err: Error)
      requires Valid() && !closed && |buffered| < capacity
      modifies this
      ensures Valid() && !closed
      ensures buffered == old(buffered) + [err]
    {
      buffered := buffered + [err];
    }

    method Close()
      requires Valid() && !closed
      modifies this
      ensures Valid() && closed && buffered == old(buffered)
    {
      closed := true;
    }

    /** One step of `for err := range ch` on a closed channel: `None` once it is drained. */
    method Receive() returns (err: Option<Error>)
      requires Valid() && closed
      modifies this
      ensures Valid() && closed
      ensures old(buffered) == [] ==> err == None && buffered == []
      ensures old(buffered) != [] ==> err == Some(old(buffered)[0]) && buffered == old(buffered)[1..]
    {
      if buffered == [] {
        err := None;
      } else {
        err := Some(buffered[0]);
        buffered := buffered[1..];
      }
    }
  }

  /** `close(errCh)` followed by the drain loop: folds every buffered error, in order. */
  method Drain(ch: ErrorChannel) returns (finalErr: Option<Error>)
    requires ch.Valid() && !ch.closed
    modifies ch
    ensures ch.Valid() && ch.closed && ch.buffered == []
    ensures finalErr == Chain(old(ch.buffered))
  {
    ch.Close();
    finalErr := None;
    ghost var received: seq<Error> := [];
    var next := ch.Receive();
    while next.Some?
      invariant ch.Valid() && ch.closed
      invariant next.None? ==> ch.buffered == []
      invariant old(ch.buffered) == received + (if next.Some? then [next.value] else []) + ch.buffered
      invariant finalErr == Chain(received)
      decreases |ch.buffered|, next.Some?
    {
      assert (received + [next.value])[..|received|] == received;
      finalErr := Some(Fold(finalErr, next.value));
      received := received + [next.value];
      next := ch.Receive();
    }
    assert old(ch.buffered) == received;
  }
}
