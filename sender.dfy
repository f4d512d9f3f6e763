/**
 * The CAN sender tab (`SenderFragment`): the checks the send button runs
 * before a frame is built, and the static socket the fragment's listeners
 * create, bind, configure and close.
 */
module Sender {
  import opened CanBase
  import JavaInteger
  import Utf8

  /** The send handler refuses identifiers from this value up; there is no lower bound. */
  const IdLimit: int := 2048

  /** Which frame-type radio button is checked, if any. */
  datatype FrameType = DataFrame | RtrFrame | ErrFrame | NoneChecked

  /** What the handler hands to `CanFrame`: the raw identifier, its flags and the payload bytes. */
  datatype FrameDesc = FrameDesc(id: int, rtr: bool, err: bool, payload: seq<byte>)

  /** Why a send click stopped before building a frame, in the order the checks run. */
  datatype Rejection = NoSocket | IdNotInteger | IdTooLarge | EmptyData

  datatype SendDecision = Reject(reason: Rejection) | Build(frame: FrameDesc)

  /** The `setRTR` / `setERR` calls the frame-type switch makes: (rtr, err). */
  function FrameFlags(t: FrameType): (flags: (bool, bool))
    ensures flags.0 <==> t == RtrFrame
    ensures flags.1 <==> t == ErrFrame
    ensures !(flags.0 && flags.1)
  {
    match t
    case RtrFrame => (true, false)
    case ErrFrame => (false, true)
    case DataFrame => (false, false)
    case NoneChecked => (false, false)
  }

  /**
   * The send button's chain of early returns: a socket must be present,
   * the identifier text must parse as an `int` below 2048 and the data text
   * must be non-empty; the payload is the text's bytes, uncapped.
   */
  function ValidateSend(socketPresent: bool, idText: string, frameType: FrameType, dataText: string): (d: SendDecision)
    ensures !socketPresent ==> d == Reject(NoSocket)
    ensures socketPresent && JavaInteger.ParseInt(idText).None? ==> d == Reject(IdNotInteger)
    ensures socketPresent && JavaInteger.ParseInt(idText).Some? && JavaInteger.ParseInt(idText).value >= IdLimit
      ==> d == Reject(IdTooLarge)
    ensures socketPresent && JavaInteger.ParseInt(idText).Some? && JavaInteger.ParseInt(idText).value < IdLimit
            && dataText == []
      ==> d == Reject(EmptyData)
    ensures d.Build? <==>
      socketPresent && JavaInteger.ParseInt(idText).Some? && JavaInteger.ParseInt(idText).value < IdLimit
      && dataText != []
    ensures d.Build? ==>
      && d.frame.id == JavaInteger.ParseInt(idText).value
      && (d.frame.rtr <==> frameType == RtrFrame)
      && (d.frame.err <==> frameType == ErrFrame)
      && Utf8.Decode(d.frame.payload) == Some(dataText)
  {
    if !socketPresent then Reject(NoSocket)
    else match JavaInteger.ParseInt(idText)
      case None => Reject(IdNotInteger)
      case Some(id) =>
        if id >= IdLimit then Reject(IdTooLarge)
        else
          var flags := FrameFlags(frameType);
          if dataText == [] then Reject(EmptyData)
          else
            Utf8.DecodeEncode(dataText);
            Build(FrameDesc(id, flags.0, flags.1, Utf8.Encode(dataText)))
  }

  /** The range check has no lower bound: a negative identifier typed in is built into a frame unchanged. */
  lemma NegativeIdAccepted(n: int, t: FrameType, dataText: string)
    requires JavaInteger.MinInt <= n < 0
    requires dataText != []
    ensures ValidateSend(true, JavaInteger.FormatInt(n), t, dataText).Build?
    ensures ValidateSend(true, JavaInteger.FormatInt(n), t, dataText).frame.id == n
  {
    JavaInteger.ParseFormat(n);
  }

  /** For any 32-bit identifier typed in, the range check refuses it exactly when it is at least 2048. */
  lemma IdRangeCheck(n: int, t: FrameType, dataText: string)
    requires JavaInteger.IsInt32(n)
    ensures ValidateSend(true, JavaInteger.FormatInt(n), t, dataText) == Reject(IdTooLarge) <==> n >= IdLimit
  {
    JavaInteger.ParseFormat(n);
  }

  /**
   * No eight-byte cap is applied: the payload is the whole encoded text, so
   * it is at least as long as the text and decodes back to it.
   */
  lemma PayloadIsWholeText(socketPresent: bool, idText: string, t: FrameType, dataText: string)
    requires ValidateSend(socketPresent, idText, t, dataText).Build?
    ensures |ValidateSend(socketPresent, idText, t, dataText).frame.payload| >= |dataText|
    ensures ValidateSend(socketPresent, idText, t, dataText).frame.payload == Utf8.Encode(dataText)
  {
    Utf8.EncodeLength(dataText);
  }

  /** A call into the CAN socket library, recorded whether or not it threw. */
  datatype SocketCall =
    | CreateSocket
    | ResolveInterface
    | Bind
    | Close
    | SetLoopback(on: bool)
    | GetLoopback
    | SetRecvOwnMsgs(on: bool)
    | GetRecvOwnMsgs
    | Send(frame: FrameDesc)

  datatype SendResult = NotSent(reason: Rejection) | Sent(frame: FrameDesc) | SendFailed(frame: FrameDesc)

  /** A frame that passed the send handler's checks. */
  predicate Checked(f: FrameDesc) {
    f.id < IdLimit && f.payload != [] && !(f.rtr && f.err)
  }

  /**
   * The sender's state: the static `socket` and `canIf` fields (present or
   * `null`), whether the library's socket is bound, and the widgets the
   * listeners read and write. Every library call is appended to `log`;
   * the outcome of each call (whether it throws `IOException`) is a
   * parameter of the listener that makes it.
   */
  class SenderFragment {
    var socket: bool
    var canIf: bool
    var socketBound: bool
    var statusBound: bool
    var bindChecked: bool
    var loopbackChecked: bool
    var rcvOwnChecked: bool
    var log: seq<SocketCall>

    /** Only a present socket can be bound, and only checked frames are ever sent. */
    ghost predicate Valid()
      reads this
    {
      && (socketBound ==> socket)
      && forall i :: 0 <= i < |log| && log[i].Send? ==> Checked(log[i].frame)
    }

    /** The static fields start `null`; the widgets start unchecked. */
    constructor ()
      ensures Valid()
      ensures !socket && !canIf && !socketBound && !statusBound
      ensures !bindChecked && !loopbackChecked && !rcvOwnChecked
      ensures log == []
    {
      socket, canIf, socketBound, statusBound := false, false, false, false;
      bindChecked, loopbackChecked, rcvOwnChecked := false, false, false;
      log := [];
    }

    /**
     * `onCreate`: create a raw socket, resolve the interface, bind. A step
     * that throws stops the rest and leaves the static field it would have
     * assigned as it was.
     */
    method OnCreate(createOk: bool, resolveOk: bool, bindOk: bool)
      requires Valid()
      modifies this`socket, this`canIf, this`socketBound, this`log
      ensures Valid()
      ensures !createOk ==>
        log == old(log) + [CreateSocket] && socket == old(socket) && canIf == old(canIf)
        && socketBound == old(socketBound)
      ensures createOk && !resolveOk ==>
        log == old(log) + [CreateSocket, ResolveInterface] && socket && canIf == old(canIf) && !socketBound
      ensures createOk && resolveOk ==>
        log == old(log) + [CreateSocket, ResolveInterface, Bind] && socket && canIf && socketBound == bindOk
    {
      log := log + [CreateSocket];
      if !createOk {
        return;
      }
      socket, socketBound := true, false;
      log := log + [ResolveInterface];
      if !resolveOk {
        return;
      }
      canIf := true;
      log := log + [Bind];
      socketBound := bindOk;
    }

    /** `onCreateView`: the status reads "binded" and the bind toggle is on, whatever `onCreate` achieved. */
    method OnCreateView()
      requires Valid()
      modifies this`statusBound, this`bindChecked
      ensures Valid()
      ensures statusBound && bindChecked
    {
      statusBound := true;
      bindChecked := true;
    }

    /**
     * The bind toggle's listener. On: create a socket if there is none,
     * then bind it; a failed creation leaves the field `null` and the
     * following `bind` dereferences it. Off: close the socket and clear the
     * field only if `close` did not throw.
     */
    method OnBindToggled(isChecked: bool, createOk: bool, bindOk: bool, closeOk: bool) returns (res: HandlerResult)
      requires Valid()
      modifies this`socket, this`socketBound, this`statusBound, this`bindChecked, this`log
      ensures Valid()
      ensures bindChecked == isChecked
      ensures isChecked && old(socket) ==>
        res == Done && log == old(log) + [Bind] && socket
        && socketBound == (bindOk || old(socketBound)) && statusBound == (bindOk || old(statusBound))
      ensures isChecked && !old(socket) && !createOk ==>
        res == Crashed && log == old(log) + [CreateSocket] && !socket && !socketBound
        && statusBound == old(statusBound)
      ensures isChecked && !old(socket) && createOk && !canIf ==>
        res == Crashed && log == old(log) + [CreateSocket] && socket && !socketBound
        && statusBound == old(statusBound)
      ensures isChecked && !old(socket) && createOk && canIf ==>
        res == Done && log == old(log) + [CreateSocket, Bind] && socket && socketBound == bindOk
        && statusBound == (bindOk || old(statusBound))
      ensures !isChecked && !old(socket) ==>
        res == Crashed && log == old(log) && !socket && !socketBound && statusBound == old(statusBound)
      ensures !isChecked && old(socket) ==>
        res == Done && log == old(log) + [Close]
        && socket == !closeOk
        && socketBound == (old(socketBound) && !closeOk)
        && statusBound == (old(statusBound) && !closeOk)
    {
      bindChecked := isChecked;
      if isChecked {
        if !socket {
          log := log + [CreateSocket];
          if createOk {
            socket, socketBound := true, false;
            if !canIf {
              return Crashed;
            }
          }
        }
        if !socket {
          return Crashed;
        }
        log := log + [Bind];
        if bindOk {
          socketBound, statusBound := true, true;
        }
        return Done;
      } else {
        if !socket {
          return Crashed;
        }
        log := log + [Close];
        if closeOk {
          socket, socketBound, statusBound := false, false, false;
        }
        return Done;
      }
    }

    /**
     * The loopback checkbox's listener: without a socket the box is set
     * back and the library is not called; otherwise the mode is set and,
     * if that did not throw, read back.
     */
    method OnLoopbackChanged(isChecked: bool, setOk: bool)
      requires Valid()
      modifies this`loopbackChecked, this`log
      ensures Valid()
      ensures !socket ==> loopbackChecked == !isChecked && log == old(log)
      ensures socket ==>
        loopbackChecked == isChecked
        && log == old(log) + [SetLoopback(isChecked)] + (if setOk then [GetLoopback] else [])
    {
      if !socket {
        loopbackChecked := !isChecked;
        return;
      }
      loopbackChecked := isChecked;
      log := log + [SetLoopback(isChecked)];
      if setOk {
        log := log + [GetLoopback];
      }
    }

    /** The receive-own-messages checkbox's listener, the same guard as loopback. */
    method OnRecvOwnMsgsChanged(isChecked: bool, setOk: bool)
      requires Valid()
      modifies this`rcvOwnChecked, this`log
      ensures Valid()
      ensures !socket ==> rcvOwnChecked == !isChecked && log == old(log)
      ensures socket ==>
        rcvOwnChecked == isChecked
        && log == old(log) + [SetRecvOwnMsgs(isChecked)] + (if setOk then [GetRecvOwnMsgs] else [])
    {
      if !socket {
        rcvOwnChecked := !isChecked;
        return;
      }
      rcvOwnChecked := isChecked;
      log := log + [SetRecvOwnMsgs(isChecked)];
      if setOk {
        log := log + [GetRecvOwnMsgs];
      }
    }

    /**
     * The send button's listener: the frame is sent once when the checks
     * pass; otherwise nothing reaches the library. `sendOk` says whether
     * `send` threw.
     */
    method OnSendClick(idText: string, frameType: FrameType, dataText: string, sendOk: bool) returns (res: SendResult)
      requires Valid()
      modifies this`log
      ensures Valid()
      ensures match ValidateSend(socket, idText, frameType, dataText)
        case Reject(why) => res == NotSent(why) && log == old(log)
        case Build(f) => log == old(log) + [Send(f)] && res == (if sendOk then Sent(f) else SendFailed(f))
    {
      match ValidateSend(socket, idText, frameType, dataText)
      case Reject(why) =>
        res := NotSent(why);
      case Build(f) =>
        log := log + [Send(f)];
        res := if sendOk then Sent(f) else SendFailed(f);
    }

    /** `onDestroy`: close the socket if there is one; the static field keeps its (now closed) socket. */
    method OnDestroy(closeOk: bool)
      requires Valid()
      modifies this`socketBound, this`log
      ensures Valid()
      ensures old(socket) ==> log == old(log) + [Close] && socketBound == (old(socketBound) && !closeOk)
      ensures !old(socket) ==> log == old(log) && socketBound == old(socketBound)
    {
      if socket {
        log := log + [Close];
        if closeOk {
          socketBound := false;
        }
      }
    }
  }
}
