/** The server's rooms, and what holds over every history of enter and exit calls. */
module Rooms {
  import opened Bytes

  const ROOM_SIZE := 100
  const MAX_ROOM_COUNT := 10

  /** A session as the room manager sees it: the object, and the account it is logged in to. */
  datatype Client = Client(handle: nat, account: nat)

  /** One room: capacity, counter, and the member sessions by account. */
  datatype RoomState = RoomState(max: int, count: int, members: map<nat, nat>)

  type Building = map<int, RoomState>

  datatype Request =
    | Enter(room: int, client: Option<Client>)
    | Exit(room: int, account: nat)

  /** Whether a request is granted: the room exists, and has space for, or holds, the account. */
  predicate Granted(b: Building, q: Request) {
    match q
    case Enter(room, client) =>
      && client.Some? && room in b
      && b[room].count < b[room].max && client.value.account !in b[room].members
    case Exit(room, account) => room in b && account in b[room].members
  }

  function EnterState(s: RoomState, account: nat, handle: nat): RoomState {
    s.(count := s.count + 1, members := s.members[account := handle])
  }

  function ExitState(s: RoomState, account: nat): RoomState {
    s.(count := s.count - 1, members := s.members - {account})
  }

  function Serve(b: Building, q: Request): Building {
    if !Granted(b, q) then b
    else match q
      case Enter(room, client) => b[room := EnterState(b[room], client.value.account, client.value.handle)]
      case Exit(room, account) => b[room := ExitState(b[room], account)]
  }

  /** `n` empty rooms numbered from 0. */
  function Opening(n: nat): (b: Building)
    ensures forall r :: r in b <==> 0 <= r < n
    ensures forall r :: r in b ==> b[r] == RoomState(ROOM_SIZE, 0, map[])
  {
    if n == 0 then map[] else Opening(n - 1)[n - 1 := RoomState(ROOM_SIZE, 0, map[])]
  }

  // ---------------------------------------------------------------------------------------
  // The objects

  class Room {
    const id: int
    const max: int
    var count: int
    var members: map<nat, nat>

    ghost function View(): RoomState
      reads this
    {
      RoomState(max, count, members)
    }

    constructor (id: int, max: int)
      ensures this.id == id && View() == RoomState(max, 0, map[])
    {
      this.id, this.max, count, members := id, max, 0, map[];
    }

    method EnterUser(account: nat, session: Option<nat>) returns (ok: bool)
      modifies this
      ensures ok == (session.Some? && old(count) < max && account !in old(members))
      ensures View() == if ok then EnterState(old(View()), account, session.value) else old(View())
    {
      if session.None? { return false; }
      if max <= count { return false; }
      if account in members { return false; }
      members := members[account := session.value];
      count := count + 1;
      return true;
    }

    method ExitUser(account: nat) returns (ok: bool)
      modifies this
      ensures ok == (account in old(members))
      ensures View() == if ok then ExitState(old(View()), account) else old(View())
    {
      if account !in members { return false; }
      members := members - {account};
      count := count - 1;
      return true;
    }
  }

  class RoomManager {
    var rooms: map<int, Room>

    /** No two numbers share a room object. */
    ghost predicate Valid()
      reads this
    {
      forall a, b :: a in rooms && b in rooms && a != b ==> rooms[a] != rooms[b]
    }

    ghost function View(): Building
      reads this, rooms.Values
    {
      map r | r in rooms :: rooms[r].View()
    }

    constructor ()
      ensures Valid() && View() == Opening(MAX_ROOM_COUNT)
      ensures forall r :: r in rooms ==> fresh(rooms[r]) && rooms[r].id == r
    {
      rooms := map[];
      new;
      var n := 0;
      while n < MAX_ROOM_COUNT
        invariant 0 <= n <= MAX_ROOM_COUNT
        invariant forall r :: r in rooms <==> 0 <= r < n
        invariant forall r :: r in rooms ==> fresh(rooms[r]) && rooms[r].id == r
        invariant forall r :: r in rooms ==> rooms[r].View() == RoomState(ROOM_SIZE, 0, map[])
      {
        var room := new Room(n, ROOM_SIZE);
        rooms := rooms[n := room];
        n := n + 1;
      }
    }

    method EnterRoom(number: int, session: Option<Client>) returns (ok: bool)
      requires Valid()
      modifies rooms.Values
      ensures Valid() && rooms == old(rooms)
      ensures ok == Granted(old(View()), Enter(number, session))
      ensures View() == Serve(old(View()), Enter(number, session))
    {
      if session.None? { return false; }
      if number !in rooms { return false; }
      var room := rooms[number];
      assert room in rooms.Values;
      assert View()[number] == room.View();
      ok := room.EnterUser(session.value.account, Some(session.value.handle));
      assert forall r :: r in rooms && r != number ==> rooms[r].View() == old(rooms[r].View());
    }

    method ExitRoom(number: int, account: nat) returns (ok: bool)
      requires Valid()
      modifies rooms.Values
      ensures Valid() && rooms == old(rooms)
      ensures ok == Granted(old(View()), Exit(number, account))
      ensures View() == Serve(old(View()), Exit(number, account))
    {
      if number !in rooms { return false; }
      var room := rooms[number];
      assert room in rooms.Values;
      assert View()[number] == room.View();
      ok := room.ExitUser(account);
      assert forall r :: r in rooms && r != number ==> rooms[r].View() == old(rooms[r].View());
    }
  }

  // ---------------------------------------------------------------------------------------
  // Histories

  datatype History = Opened | And(before: History, q: Request)

  ghost function After(h: History): Building {
    match h case Opened => Opening(MAX_ROOM_COUNT) case And(before, q) => Serve(After(before), q)
  }

  ghost predicate LastGranted(h: History)
    requires h.And?
  {
    Granted(After(h.before), h.q)
  }

  ghost predicate Counted(s: RoomState) { s.count == |s.members| <= s.max == ROOM_SIZE }

  /** In every history there are rooms 0 to 9, each count is its membership size, at most 100. */
  lemma {:induction false} CountsExact(h: History)
    ensures forall r :: r in After(h) <==> 0 <= r < MAX_ROOM_COUNT
    ensures forall r :: r in After(h) ==> Counted(After(h)[r])
  {
    if h.And? {
      CountsExact(h.before);
      if LastGranted(h) { StateCounted(After(h.before), h.q); }
    }
  }

  lemma StateCounted(b: Building, q: Request)
    requires Granted(b, q) && Counted(b[q.room])
    ensures Counted(Serve(b, q)[q.room])
  {
    var s := b[q.room];
    if q.Exit? {
      assert s.members.Keys == (s.members - {q.account}).Keys + {q.account};
      assert |s.members.Keys| == |s.members| && |(s.members - {q.account}).Keys| == |s.members - {q.account}|;
    }
  }

  /** What the last granted request on this room and account left: the session entered with, if any. */
  ghost function LastOn(h: History, room: int, account: nat): Option<nat> {
    match h
    case Opened => None
    case And(before, q) =>
      if !LastGranted(h) || q.room != room then LastOn(before, room, account)
      else match q
        case Enter(_, client) =>
          if client.value.account == account then Some(client.value.handle) else LastOn(before, room, account)
        case Exit(_, a) => if a == account then None else LastOn(before, room, account)
  }

  /** An account is a member, with that session, exactly when the last granted request entered it. */
  lemma {:induction false} MemberIsLastRequest(h: History, room: int, account: nat)
    ensures LastOn(h, room, account)
         == if room in After(h) && account in After(h)[room].members then Some(After(h)[room].members[account]) else None
  {
    if h.And? { MemberIsLastRequest(h.before, room, account); }
  }

  /** Members of rooms 0 to n - 1. */
  ghost function Occupancy(b: Building, n: nat): nat
    requires forall r :: 0 <= r < n ==> r in b
  {
    if n == 0 then 0 else Occupancy(b, n - 1) + |b[n - 1].members|
  }

  ghost function Enters(h: History): nat {
    match h case Opened => 0 case And(before, q) => Enters(before) + One(LastGranted(h) && q.Enter?)
  }

  ghost function Exits(h: History): nat {
    match h case Opened => 0 case And(before, q) => Exits(before) + One(LastGranted(h) && q.Exit?)
  }

  lemma {:induction false} OccupancyChanges(b: Building, b': Building, room: int, n: nat)
    requires forall r :: 0 <= r < n ==> r in b && r in b' && (r != room ==> b'[r] == b[r])
    requires room in b && room in b'
    ensures Occupancy(b', n) - Occupancy(b, n)
         == if 0 <= room < n then |b'[room].members| - |b[room].members| else 0
  {
    if n > 0 { OccupancyChanges(b, b', room, n - 1); }
  }

  lemma {:induction false} NobodyAtFirst(n: nat)
    requires n <= MAX_ROOM_COUNT
    ensures Occupancy(Opening(MAX_ROOM_COUNT), n) == 0
  {
    if n > 0 { NobodyAtFirst(n - 1); }
  }

  /** Total occupancy is granted enters minus granted exits. */
  lemma {:induction false} OccupancyConserved(h: History)
    ensures forall r :: 0 <= r < MAX_ROOM_COUNT ==> r in After(h)
    ensures Occupancy(After(h), MAX_ROOM_COUNT) == Enters(h) - Exits(h)
  {
    CountsExact(h);
    if h.Opened? {
      NobodyAtFirst(MAX_ROOM_COUNT);
    } else {
      OccupancyConserved(h.before);
      CountsExact(h.before);
      if LastGranted(h) {
        StateCounted(After(h.before), h.q);
        OccupancyChanges(After(h.before), After(h), h.q.room, MAX_ROOM_COUNT);
      }
    }
  }

  // ---------------------------------------------------------------------------------------
  // Every answer, from the requests before it

  /** Granted enters minus granted exits of one room. */
  ghost function Inside(h: History, room: int): int {
    match h
    case Opened => 0
    case And(before, q) =>
      Inside(before, room) + if !LastGranted(h) || q.room != room then 0 else if q.Enter? then 1 else -1
  }

  lemma {:induction false} InsideIsCount(h: History, room: int)
    ensures Inside(h, room) == if room in After(h) then After(h)[room].count else 0
  {
    if h.And? { InsideIsCount(h.before, room); }
  }

  /**
   * An enter is granted exactly if there is a session, the room is one of 0 to 9, fewer than 100 are
   * inside by the requests granted so far, and the last one on this account did not leave it inside.
   */
  lemma EnterGranted(h: History, room: int, client: Option<Client>)
    ensures Granted(After(h), Enter(room, client))
       <==> client.Some? && 0 <= room < MAX_ROOM_COUNT && Inside(h, room) < ROOM_SIZE
            && LastOn(h, room, client.value.account).None?
  {
    CountsExact(h);
    InsideIsCount(h, room);
    if client.Some? { MemberIsLastRequest(h, room, client.value.account); }
  }

  /** An exit is granted exactly if the last granted request on this room and account entered it. */
  lemma ExitGranted(h: History, room: int, account: nat)
    ensures Granted(After(h), Exit(room, account)) <==> LastOn(h, room, account).Some?
  {
    MemberIsLastRequest(h, room, account);
  }
}
