/**
 * The CAN receiver tab (`ReceiverFragment`): the bind and acquisition
 * toggles over the static socket and receive task, and the background
 * receive loop, played against a scripted sequence of `recv` outcomes.
 */
module Receiver {
  import opened CanBase

  /** A frame as `recv` returns it; its contents come from the library. */
  datatype RxFrame = RxFrame(id: int, data: seq<byte>)

  /** What one `socket.recv(2)` call did. */
  datatype RecvOutcome =
    | Received(frame: RxFrame)
      /** `recv` threw `IOException` (a timeout included). */
    | IoError
      /** The static socket was `null` (closed and cleared by the bind toggle). */
    | NullSocket

  datatype StopReason = Cancelled | SocketGone

  /** The frames among `outcomes`, in order: one published message each. */
  function Frames(outcomes: seq<RecvOutcome>): seq<RxFrame> {
    if |outcomes| == 0 then []
    else
      var last := outcomes[|outcomes| - 1];
      Frames(outcomes[..|outcomes| - 1]) + (if last.Received? then [last.frame] else [])
  }

  /**
   * How many `recv` calls the loop makes when it observes cancellation
   * before call number `cancelAt + 1`: it stops early just after the first
   * `NullSocket`.
   */
  function RecvCalls(script: seq<RecvOutcome>, cancelAt: nat): (n: nat)
    requires cancelAt <= |script|
    ensures n <= cancelAt
    ensures NullSocket !in script[..cancelAt] ==> n == cancelAt
    ensures NullSocket in script[..cancelAt] ==>
      0 < n && script[n - 1] == NullSocket && NullSocket !in script[..n - 1]
  {
    if cancelAt == 0 then 0
    else if script[0] == NullSocket then 1
    else
      var n := 1 + RecvCalls(script[1..], cancelAt - 1);
      assert script[..cancelAt] == [script[0]] + script[1..][..cancelAt - 1];
      assert n > 1 ==> script[..n - 1] == [script[0]] + script[1..][..n - 2];
      n
  }

  /**
   * `doInBackground`: while not cancelled, call `recv`; a frame is
   * published, an `IOException` is logged and the loop goes on, a `null`
   * socket ends the loop. Cancellation is seen at the check before the
   * call after the first `cancelAt` calls; `script` supplies the outcome of
   * each call.
   */
  method ReceiveLoop(script: seq<RecvOutcome>, cancelAt: nat)
    returns (published: seq<RxFrame>, calls: nat, reason: StopReason)
    requires cancelAt <= |script|
    ensures calls == RecvCalls(script, cancelAt)
    ensures published == Frames(script[..calls])
    ensures reason == SocketGone <==> NullSocket in script[..cancelAt]
  {
    published, calls := [], 0;
    while calls < cancelAt
      invariant calls <= cancelAt
      invariant published == Frames(script[..calls])
      invariant NullSocket !in script[..calls]
      invariant RecvCalls(script, cancelAt) == calls + RecvCalls(script[calls..], cancelAt - calls)
    {
      var outcome := script[calls];
      assert script[..calls + 1][..calls] == script[..calls];
      assert script[calls..][1..] == script[calls + 1..];
      match outcome {
        case Received(f) =>
          published := published + [f];
        case IoError =>
        case NullSocket =>
          calls := calls + 1;
          assert NullSocket in script[..cancelAt] by {
            assert script[..cancelAt][calls - 1] == NullSocket;
          }
          return published, calls, SocketGone;
      }
      calls := calls + 1;
    }
    assert script[..calls] == script[..cancelAt];
    return published, calls, Cancelled;
  }

  /** Outcomes received one after another are published one after another. */
  lemma {:induction false} FramesAppend(a: seq<RecvOutcome>, b: seq<RecvOutcome>)
    ensures Frames(a + b) == Frames(a) + Frames(b)
    decreases |b|
  {
    if |b| == 0 {
      assert a + b == a;
    } else {
      var b' := b[..|b| - 1];
      assert (a + b)[..|a + b| - 1] == a + b';
      assert (a + b)[|a + b| - 1] == b[|b| - 1];
      FramesAppend(a, b');
    }
  }

  /**
   * Each outcome's share of what is published: a frame publishes exactly
   * itself, an `IOException` or a `null` socket nothing.
   */
  lemma OneMessagePerFrame(a: seq<RecvOutcome>, o: RecvOutcome, b: seq<RecvOutcome>)
    ensures Frames(a + [o] + b) == Frames(a) + (if o.Received? then [o.frame] else []) + Frames(b)
  {
    FramesAppend(a + [o], b);
    assert (a + [o])[..|a + [o]| - 1] == a;
  }

  /** At most one message per `recv` call. */
  lemma {:induction false} FramesLength(outcomes: seq<RecvOutcome>)
    ensures |Frames(outcomes)| <= |outcomes|
  {
    if |outcomes| > 0 {
      FramesLength(outcomes[..|outcomes| - 1]);
    }
  }

  /**
   * Cancelling later never takes back a message: what is published with an
   * earlier cancellation is a prefix of what is published with a later one.
   */
  lemma LaterCancelPublishesMore(script: seq<RecvOutcome>, c1: nat, c2: nat)
    requires c1 <= c2 <= |script|
    ensures RecvCalls(script, c1) <= RecvCalls(script, c2)
    ensures Frames(script[..RecvCalls(script, c1)]) <= Frames(script[..RecvCalls(script, c2)])
  {
    var n1, n2 := RecvCalls(script, c1), RecvCalls(script, c2);
    if NullSocket in script[..c1] {
      assert script[..c2][n1 - 1] == NullSocket;
    }
    assert script[..n2] == script[..n1] + script[n1..n2];
    FramesAppend(script[..n1], script[n1..n2]);
  }

  /** Which view `onCreateView` returned. */
  datatype ViewKind = NoView | ReceiverView | NoPermissionsView

  /** A call into the socket library or on a receive task. */
  datatype ReceiverCall =
    | CreateSocket
    | ResolveInterface
    | Bind
    | Close
    | StartTask
    | CancelTask(task: nat)

  /**
   * The receiver's state: the static `socket` and `canIf` (present or
   * `null`), the library's bound flag, the widgets, and `tasks`, the
   * cancellation flag of every receive task started so far; the static
   * `rcvTask` is the last of them and is `null` while `tasks` is empty.
   * Every call is appended to `log`.
   */
  class ReceiverFragment {
    var socket: bool
    var canIf: bool
    var socketBound: bool
    var statusBound: bool
    var view: ViewKind
    var bindChecked: bool
    var acquisitionChecked: bool
    var tasks: seq<bool>
    var log: seq<ReceiverCall>

    /** Only a present socket can be bound; every cancelled task was started and stays cancelled. */
    ghost predicate Valid()
      reads this
    {
      && (socketBound ==> socket)
      && forall i :: 0 <= i < |log| && log[i].CancelTask? ==> log[i].task < |tasks| && tasks[log[i].task]
    }

    constructor ()
      ensures Valid()
      ensures !socket && !canIf && !socketBound && !statusBound && view == NoView
      ensures !bindChecked && !acquisitionChecked && tasks == [] && log == []
    {
      socket, canIf, socketBound, statusBound := false, false, false, false;
      view, bindChecked, acquisitionChecked := NoView, false, false;
      tasks, log := [], [];
    }

    /** `onCreate`: create, resolve, bind; a step that throws stops the rest. */
    method OnCreate(createOk: bool, resolveOk: bool, bindOk: bool)
      requires Valid()
      modifies this`socket, this`canIf, this`socketBound, this`log
      ensures Valid()
      ensures !createOk ==>
        log == old(log) + [CreateSocket] && socket == old(socket) && canIf == old(canIf)
        && socketBound == old(socketBound)
      ensures createOk && !resolveOk ==>
        log == old(log) + [CreateSocket, ResolveInterface] && socket && canIf == old(canIf) && !socketBound
      ensures createOk && resolveOk ==>
        log == old(log) + [CreateSocket, ResolveInterface, Bind] && socket && canIf && socketBound == bindOk
    {
      log := log + [CreateSocket];
      if !createOk {
        return;
      }
      socket, socketBound := true, false;
      log := log + [ResolveInterface];
      if !resolveOk {
        return;
      }
      canIf := true;
      log := log + [Bind];
      socketBound := bindOk;
    }

    /**
     * `onCreateView`: without a socket the no-permissions view replaces the
     * receiver view and no listener is installed; otherwise the status
     * reads "binded" and the bind toggle is on.
     */
    method OnCreateView()
      requires Valid()
      modifies this`view, this`statusBound, this`bindChecked
      ensures Valid()
      ensures !socket ==> view == NoPermissionsView && statusBound == old(statusBound) && bindChecked == old(bindChecked)
      ensures socket ==> view == ReceiverView && statusBound && bindChecked
    {
      if !socket {
        view := NoPermissionsView;
        return;
      }
      view := ReceiverView;
      statusBound, bindChecked := true, true;
    }

    /**
     * The bind toggle's listener. On: create a socket if there is none
     * (returning if that throws), then bind (the status changes only if
     * `bind` did not throw). Off: cancel the current receive task if there
     * is one, then close; the field is cleared only if `close` did not
     * throw.
     */
    method OnBindToggled(isChecked: bool, createOk: bool, bindOk: bool, closeOk: bool) returns (res: HandlerResult)
      requires Valid()
      requires view == ReceiverView
      modifies this`socket, this`socketBound, this`statusBound, this`bindChecked, this`tasks, this`log
      ensures Valid()
      ensures bindChecked == isChecked
      ensures isChecked ==> tasks == old(tasks)
      ensures isChecked && old(socket) ==>
        res == Done && log == old(log) + [Bind] && socket
        && socketBound == (bindOk || old(socketBound)) && statusBound == (bindOk || old(statusBound))
      ensures isChecked && !old(socket) && !createOk ==>
        res == Done && log == old(log) + [CreateSocket] && !socket && !socketBound
        && statusBound == old(statusBound)
      ensures isChecked && !old(socket) && createOk && !canIf ==>
        res == Crashed && log == old(log) + [CreateSocket] && socket && !socketBound
        && statusBound == old(statusBound)
      ensures isChecked && !old(socket) && createOk && canIf ==>
        res == Done && log == old(log) + [CreateSocket, Bind] && socket && socketBound == bindOk
        && statusBound == (bindOk || old(statusBound))
      ensures !isChecked ==>
        var cancel := if old(tasks) == [] then [] else [CancelTask(|old(tasks)| - 1)];
        && tasks == (if old(tasks) == [] then [] else old(tasks)[|old(tasks)| - 1 := true])
        && (!old(socket) ==> res == Crashed && log == old(log) + cancel && !socket && !socketBound
                             && statusBound == old(statusBound))
        && (old(socket) ==> res == Done && log == old(log) + cancel + [Close]
                            && socket == !closeOk
                            && socketBound == (old(socketBound) && !closeOk)
                            && statusBound == (old(statusBound) && !closeOk))
    {
      bindChecked := isChecked;
      if isChecked {
        if !socket {
          log := log + [CreateSocket];
          if !createOk {
            return Done;
          }
          socket, socketBound := true, false;
          if !canIf {
            return Crashed;
          }
        }
        log := log + [Bind];
        if bindOk {
          socketBound, statusBound := true, true;
        }
        return Done;
      } else {
        if tasks != [] {
          tasks := tasks[|tasks| - 1 := true];
          log := log + [CancelTask(|tasks| - 1)];
        }
        if !socket {
          return Crashed;
        }
        log := log + [Close];
        if closeOk {
          socket, socketBound, statusBound := false, false, false;
        }
        return Done;
      }
    }

    /**
     * The acquisition toggle's listener. On: without a socket the toggle is
     * set back to off and no task starts; otherwise a new task starts and
     * becomes `rcvTask`. Off: the current task is cancelled (there must be
     * one, or the call dereferences `null`).
     */
    method OnAcquisitionToggled(isChecked: bool) returns (res: HandlerResult)
      requires Valid()
      requires view == ReceiverView
      modifies this`acquisitionChecked, this`tasks, this`log
      ensures Valid()
      ensures isChecked && !socket ==>
        res == Done && !acquisitionChecked && tasks == old(tasks) && log == old(log)
      ensures isChecked && socket ==>
        res == Done && acquisitionChecked && tasks == old(tasks) + [false] && log == old(log) + [StartTask]
      ensures !isChecked && old(tasks) == [] ==>
        res == Crashed && !acquisitionChecked && tasks == old(tasks) && log == old(log)
      ensures !isChecked && old(tasks) != [] ==>
        res == Done && !acquisitionChecked && tasks == old(tasks)[|old(tasks)| - 1 := true]
        && log == old(log) + [CancelTask(|old(tasks)| - 1)]
    {
      acquisitionChecked := isChecked;
      if isChecked {
        if !socket {
          acquisitionChecked := false;
          return Done;
        }
        tasks := tasks + [false];
        log := log + [StartTask];
        return Done;
      } else {
        if tasks == [] {
          return Crashed;
        }
        tasks := tasks[|tasks| - 1 := true];
        log := log + [CancelTask(|tasks| - 1)];
        return Done;
      }
    }

    /** `onDestroy`: close the socket if there is one; the receive task is not cancelled and the field not cleared. */
    method OnDestroy(closeOk: bool)
      requires Valid()
      modifies this`socketBound, this`log
      ensures Valid()
      ensures old(socket) ==> log == old(log) + [Close] && socketBound == (old(socketBound) && !closeOk)
      ensures !old(socket) ==> log == old(log) && socketBound == old(socketBound)
    {
      if socket {
        log := log + [Close];
        if closeOk {
          socketBound := false;
        }
      }
    }
  }
}
