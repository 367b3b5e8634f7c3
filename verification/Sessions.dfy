/**
 * The shared state of one `TestSession` and, for each critical section under `_send_lock`, the
 * function of that state it computes.  The answers of the socket layer are parameters.
 */
module Sessions {
  import opened Bytes
  import opened RecvBuffers

  datatype Phase = NONE | DISCONNECTED | CONNECTED | LOGIN_SEND | LOGIN

  datatype RoomRequest = NO_REQUEST | ENTER | EXIT

  /** `_is_connect`, `_is_disconnect` and this session's share of the global counters. */
  datatype Life = Life(connected: bool, closed: bool, connects: nat, disconnects: nat)

  /** `_test_session_state`, `_is_login`, `_account_idx`, `_login_pending`, `_room_id`, `_room_request`. */
  datatype Account = Account(phase: Phase, isLogin: bool, idx: nat, pending: bool, room: int, request: RoomRequest)

  /** `_send_queue`, `_is_send_register` and the bytes the send event still holds. */
  datatype Tx = Tx(queue: seq<Buffer>, registered: bool, unsent: seq<byte>)

  datatype Session = Session(life: Life, account: Account, tx: Tx, started: bool, rx: RecvBuf, pendingIo: int)

  const FRESH_ACCOUNT := Account(NONE, false, 0, false, -1, NO_REQUEST)
  const CLOSED_ACCOUNT := Account(DISCONNECTED, false, 0, false, -1, NO_REQUEST)

  function Fresh(rx: RecvBuf): Session {
    Session(Life(false, false, 0, 0), FRESH_ACCOUNT, Tx([], false, []), false, rx, 0)
  }

  function Connect(s: Session, ok: bool): Session {
    if s.life.connected || s.life.closed then s
    else if !ok then s.(life := s.life.(connected := false))
    else s.(life := s.life.(connected := true, connects := s.life.connects + 1),
            account := s.account.(phase := CONNECTED))
  }

  function Disconnect(s: Session): Session {
    if !s.life.connected then s
    else if s.life.closed then s.(life := s.life.(connected := false))
    else s.(life := s.life.(connected := false, closed := true, disconnects := s.life.disconnects + 1),
            account := CLOSED_ACCOUNT,
            tx := s.tx.(queue := [], registered := false))
  }

  datatype PushResult = Refused | Queued | MustRegister

  function Push(s: Session, b: Buffer): (Session, PushResult) {
    if !s.life.connected then (s, Refused)
    else (s.(tx := s.tx.(queue := s.tx.queue + [b], registered := true)),
          if s.tx.registered then Queued else MustRegister)
  }

  datatype SendOutcome = SendRefused | NothingToSend | Posted(bytes: seq<byte>) | PostFailed

  /** `register_send`: leftovers first, otherwise the whole queue; `ok` is the answer of WSASend. */
  function RegisterSend(s: Session, ok: bool): (Session, SendOutcome) {
    if !s.life.connected then (s.(tx := s.tx.(unsent := [], registered := false)), SendRefused)
    else
      var tx := if s.tx.unsent != [] then s.tx else s.tx.(unsent := Flat(s.tx.queue), queue := []);
      if tx.unsent == [] then (s.(tx := tx.(registered := false)), NothingToSend)
      else if ok then (s.(tx := tx, pendingIo := s.pendingIo + 1), Posted(tx.unsent))
      else (s.(tx := tx.(unsent := [])), PostFailed)
  }

  datatype SendNext = Quiet | Again | BadCompletion

  function ProcessSend(s: Session, n: nat): (Session, SendNext) {
    if !s.life.connected then (s.(tx := s.tx.(unsent := [], registered := false)), Quiet)
    else if !(0 < n <= |s.tx.unsent|) then (s.(tx := s.tx.(unsent := [])), BadCompletion)
    else if n < |s.tx.unsent| then (s.(tx := s.tx.(unsent := s.tx.unsent[n..])), Again)
    else if s.tx.queue == [] then (s.(tx := s.tx.(unsent := [], registered := false)), Quiet)
    else (s.(tx := s.tx.(unsent := [])), Again)
  }

  datatype RecvOutcome = RecvRefused | Armed(at: nat, len: nat) | ArmFailed

  function RegisterRecv(s: Session, ok: bool): (Session, RecvOutcome)
    requires s.rx.Valid()
  {
    if !s.life.connected then (s, RecvRefused)
    else if ok then (s.(pendingIo := s.pendingIo + 1), Armed(s.rx.writePos, s.rx.FreeSize()))
    else (s, ArmFailed)
  }

  function FinishIo(s: Session): Session { s.(pendingIo := s.pendingIo - 1) }

  function BeginLogin(s: Session): (Session, bool) {
    if !s.life.connected || s.account.isLogin || s.account.pending then (s, false)
    else (s.(account := s.account.(pending := true, phase := LOGIN_SEND)), true)
  }

  function CompleteLogin(s: Session, success: bool, idx: nat): Session {
    if s.life.connected then
      s.(account := s.account.(idx := if success then idx else 0, isLogin := success,
                               phase := if success then LOGIN else CONNECTED, pending := false))
    else s.(account := s.account.(pending := false))
  }

  function BeginEnter(s: Session): (Session, bool) {
    if !s.life.connected || !s.account.isLogin || s.account.room >= 0 || s.account.request != NO_REQUEST
    then (s, false)
    else (s.(account := s.account.(request := ENTER)), true)
  }

  function BeginExit(s: Session): (Session, bool) {
    if !s.life.connected || !s.account.isLogin || s.account.room < 0 || s.account.request != NO_REQUEST
    then (s, false)
    else (s.(account := s.account.(request := EXIT)), true)
  }

  function CompleteEnter(s: Session, success: bool, room: int): Session {
    if s.account.request != ENTER then s
    else if s.life.connected && success then s.(account := s.account.(room := room, request := NO_REQUEST))
    else s.(account := s.account.(request := NO_REQUEST))
  }

  function CompleteExit(s: Session, success: bool): Session {
    if s.account.request != EXIT then s
    else if s.life.connected && success then s.(account := s.account.(room := -1, request := NO_REQUEST))
    else s.(account := s.account.(request := NO_REQUEST))
  }
}
