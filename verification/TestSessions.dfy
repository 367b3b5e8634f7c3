/**
 * `TestSession` as an object: each method is one critical section under `_send_lock`, updating
 * the fields in place, and computes exactly the function of the same name in `Sessions` that the
 * step system is built from.
 */
module TestSessions {
  import opened Bytes
  import opened SendEvents
  import opened RecvBuffers
  import S = Sessions

  class TestSession {
    var isConnect: bool
    var isDisconnect: bool
    var connectCount: nat
    var disconnectCount: nat
    var isLogin: bool
    var accountIdx: nat
    var roomId: int
    var state: S.Phase
    var loginPending: bool
    var roomRequest: S.RoomRequest
    var sendQueue: seq<Buffer>
    var isSendRegister: bool
    const sendEvent: SendEvent
    const recvBuffer: RecvBuffer
    var recvStarted: bool
    var pendingIo: int

    ghost predicate Valid()
      reads this, sendEvent, recvBuffer, recvBuffer.data
    {
      sendEvent.Valid() && recvBuffer.Valid()
    }

    /** The session as the step system sees it. */
    ghost function View(): S.Session
      requires Valid()
      reads this, sendEvent, recvBuffer, recvBuffer.data
    {
      S.Session(S.Life(isConnect, isDisconnect, connectCount, disconnectCount),
                S.Account(state, isLogin, accountIdx, loginPending, roomId, roomRequest),
                S.Tx(sendQueue, isSendRegister, sendEvent.Remaining()),
                recvStarted, recvBuffer.Abs(), pendingIo)
    }

    constructor ()
      ensures Valid() && View() == S.Fresh(recvBuffer.Abs()) && recvBuffer.unit == BUFFER_SIZE
    {
      isConnect, isDisconnect, connectCount, disconnectCount := false, false, 0, 0;
      isLogin, accountIdx, roomId, state := false, 0, -1, S.NONE;
      loginPending, roomRequest := false, S.NO_REQUEST;
      sendQueue, isSendRegister, recvStarted, pendingIo := [], false, false, 0;
      sendEvent := new SendEvent();
      recvBuffer := new RecvBuffer(BUFFER_SIZE);
    }

    method Connect(socketOk: bool) returns (ok: bool)
      requires Valid()
      modifies this
      ensures Valid() && View() == S.Connect(old(View()), socketOk)
      ensures ok <==> socketOk && !old(isConnect) && !old(isDisconnect)
    {
      if isConnect || isDisconnect { return false; }
      if !socketOk {
        isConnect := false;
        return false;
      }
      isConnect := true;
      state := S.CONNECTED;
      connectCount := connectCount + 1;
      return true;
    }

    /** Lines 74-79: login and room state of a closed session. */
    method ClearAccount()
      modifies this`state, this`isLogin, this`accountIdx, this`roomId, this`loginPending, this`roomRequest
      ensures S.Account(state, isLogin, accountIdx, loginPending, roomId, roomRequest)
           == S.CLOSED_ACCOUNT
    {
      state := S.DISCONNECTED;
      isLogin, accountIdx, roomId := false, 0, -1;
      loginPending, roomRequest := false, S.NO_REQUEST;
    }

    /** Lines 74-93: what the one thread that closes the session does. */
    method CloseOnce()
      requires Valid()
      modifies this
      ensures Valid()
      ensures var s := old(View());
        View() == s.(life := s.life.(disconnects := s.life.disconnects + 1), account := S.CLOSED_ACCOUNT,
                     tx := s.tx.(queue := [], registered := false))
    {
      ClearAccount();
      isSendRegister := false;
      sendQueue := [];
      disconnectCount := disconnectCount + 1;
    }

    method Disconnect()
      requires Valid()
      modifies this
      ensures Valid() && View() == S.Disconnect(old(View()))
    {
      var was := isConnect;
      isConnect := false;
      if !was { return; }
      was := isDisconnect;
      isDisconnect := true;
      if was { return; }
      CloseOnce();
    }

    /** The first half of `send`. */
    method Push(buffer: Buffer) returns (result: S.PushResult)
      requires Valid()
      modifies this
      ensures Valid() && (View(), result) == S.Push(old(View()), buffer)
    {
      if !isConnect { return S.Refused; }
      sendQueue := sendQueue + [buffer];
      var was := isSendRegister;
      isSendRegister := true;
      return if was then S.Queued else S.MustRegister;
    }

    /** Lines 452-459: leftovers of a partial send go first, otherwise the whole queue is taken. */
    method FillEvent()
      requires Valid()
      modifies this`sendQueue, sendEvent
      ensures Valid()
      ensures old(sendEvent.Remaining()) != [] ==>
        sendEvent.Remaining() == old(sendEvent.Remaining()) && sendQueue == old(sendQueue)
      ensures old(sendEvent.Remaining()) == [] ==>
        sendEvent.Remaining() == Flat(old(sendQueue)) && sendQueue == []
    {
      var pending := sendEvent.HasPendingData();
      if pending { return; }
      while sendQueue != []
        invariant Valid()
        invariant sendEvent.Remaining() + Flat(sendQueue) == Flat(old(sendQueue))
        decreases |sendQueue|
      {
        ghost var before := sendEvent.Remaining();
        sendEvent.Push(sendQueue[0]);
        Assoc(before, sendQueue[0], Flat(sendQueue[1..]));
        sendQueue := sendQueue[1..];
      }
    }

    /** `accepted` is the answer of WSASend; `wsabufs` is what it is given. */
    method RegisterSend(accepted: bool) returns (outcome: S.SendOutcome, wsabufs: seq<seq<byte>>)
      requires Valid()
      modifies this, sendEvent
      ensures Valid() && (View(), outcome) == S.RegisterSend(old(View()), accepted)
      ensures outcome.Posted? ==> Flat(wsabufs) == outcome.bytes
    {
      wsabufs := [];
      if !isConnect {
        sendEvent.Clear();
        isSendRegister := false;
        return S.SendRefused, [];
      }
      FillEvent();
      wsabufs := sendEvent.BuildWsabufs();
      FlatEmpty(wsabufs);
      if wsabufs == [] {
        sendEvent.Clear();
        isSendRegister := false;
        return S.NothingToSend, [];
      }
      pendingIo := pendingIo + 1;
      if !accepted {
        pendingIo := pendingIo - 1;
        sendEvent.Clear();
        return S.PostFailed, [];
      }
      outcome := S.Posted(Flat(wsabufs));
    }

    method ProcessSend(numBytes: nat) returns (next: S.SendNext)
      requires Valid()
      modifies this, sendEvent
      ensures Valid() && (View(), next) == S.ProcessSend(old(View()), numBytes)
    {
      if !isConnect {
        sendEvent.Clear();
        isSendRegister := false;
        return S.Quiet;
      }
      var ok := sendEvent.ConsumeSentBytes(numBytes);
      if !ok {
        sendEvent.Clear();
        return S.BadCompletion;
      }
      var pending := sendEvent.HasPendingData();
      if pending { return S.Again; }
      sendEvent.Clear();
      if sendQueue == [] {
        isSendRegister := false;
        return S.Quiet;
      }
      return S.Again;
    }

    method RegisterRecv(accepted: bool) returns (outcome: S.RecvOutcome)
      requires Valid()
      modifies this
      ensures Valid() && (View(), outcome) == S.RegisterRecv(old(View()), accepted)
    {
      if !isConnect { return S.RecvRefused; }
      pendingIo := pendingIo + 1;
      if !accepted {
        pendingIo := pendingIo - 1;
        return S.ArmFailed;
      }
      return S.Armed(recvBuffer.writePos, recvBuffer.data.Length - recvBuffer.writePos);
    }

    /** The asserted precondition is discharged for every run by `PendingIoExact`. */
    method FinishIo()
      requires Valid() && pendingIo > 0
      modifies this
      ensures Valid() && View() == S.FinishIo(old(View()))
    {
      pendingIo := pendingIo - 1;
    }

    method BeginLogin() returns (ok: bool)
      requires Valid()
      modifies this
      ensures Valid() && (View(), ok) == S.BeginLogin(old(View()))
    {
      if !isConnect || isLogin || loginPending { return false; }
      loginPending := true;
      state := S.LOGIN_SEND;
      return true;
    }

    method CompleteLogin(success: bool, idx: nat)
      requires Valid()
      modifies this
      ensures Valid() && View() == S.CompleteLogin(old(View()), success, idx)
    {
      if isConnect {
        accountIdx := if success then idx else 0;
        isLogin := success;
        state := if success then S.LOGIN else S.CONNECTED;
      }
      loginPending := false;
    }

    method BeginEnterRoom() returns (ok: bool)
      requires Valid()
      modifies this
      ensures Valid() && (View(), ok) == S.BeginEnter(old(View()))
    {
      if !isConnect || !isLogin || roomId >= 0 || roomRequest != S.NO_REQUEST { return false; }
      roomRequest := S.ENTER;
      return true;
    }

    method BeginExitRoom() returns (ok: bool)
      requires Valid()
      modifies this
      ensures Valid() && (View(), ok) == S.BeginExit(old(View()))
    {
      if !isConnect || !isLogin || roomId < 0 || roomRequest != S.NO_REQUEST { return false; }
      roomRequest := S.EXIT;
      return true;
    }

    method CompleteEnterRoom(success: bool, room: int)
      requires Valid()
      modifies this
      ensures Valid() && View() == S.CompleteEnter(old(View()), success, room)
    {
      if roomRequest != S.ENTER { return; }
      if isConnect && success { roomId := room; }
      roomRequest := S.NO_REQUEST;
    }

    method CompleteExitRoom(success: bool)
      requires Valid()
      modifies this
      ensures Valid() && View() == S.CompleteExit(old(View()), success)
    {
      if roomRequest != S.EXIT { return; }
      if isConnect && success { roomId := -1; }
      roomRequest := S.NO_REQUEST;
    }
  }
}
