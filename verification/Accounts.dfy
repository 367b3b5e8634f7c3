/** The server's account registry, and what holds over every history of calls to it. */
module Accounts {
  import opened Bytes
  import opened Varints

  datatype Info = Info(account: nat, pw: string, name: string)

  datatype Registry = Registry(db: map<string, Info>, names: set<string>, counter: nat, online: set<nat>)

  datatype Request =
    | Create(id: string, pw: string, name: string)
    | LogIn(id: string, pw: string)
    | LogOut(account: nat)

  datatype Reply =
    | HasAccount | NameTaken | NoSuchId | WrongPassword | AlreadyIn | NotIn
    | Success(account: nat, name: string)

  const FRESH := Registry(map[], {}, 1, {})

  /** The meaning of a request, without the shortcuts for empty collections. */
  function Serve(r: Registry, q: Request): (Registry, Reply) {
    match q
    case Create(id, pw, name) =>
      if id in r.db then (r, HasAccount)
      else if name in r.names then (r, NameTaken)
      else (Registry(r.db[id := Info(r.counter, pw, name)], r.names + {name},
                     (r.counter + 1) % POW64, r.online + {r.counter}),
            Success(r.counter, name))
    case LogIn(id, pw) =>
      if id !in r.db then (r, NoSuchId)
      else if r.db[id].pw != pw then (r, WrongPassword)
      else if r.db[id].account in r.online then (r, AlreadyIn)
      else (r.(online := r.online + {r.db[id].account}), Success(r.db[id].account, r.db[id].name))
    case LogOut(account) =>
      if account !in r.online then (r, NotIn)
      else (r.(online := r.online - {account}), Success(account, ""))
  }

  /** The names are exactly those of the accounts, no two accounts share one. */
  ghost predicate NamesMatch(r: Registry) {
    && (forall id :: id in r.db ==> r.db[id].name in r.names)
    && (forall name :: name in r.names ==> exists id :: id in r.db && r.db[id].name == name)
    && (forall a, b :: a in r.db && b in r.db && a != b ==> r.db[a].name != r.db[b].name)
  }

  lemma ServeKeepsNames(r: Registry, q: Request)
    requires NamesMatch(r)
    ensures NamesMatch(Serve(r, q).0)
  {
    var r' := Serve(r, q).0;
    if q.Create? && r' != r {
      assert r'.db[q.id].name == q.name;
      forall name | name in r'.names ensures exists id :: id in r'.db && r'.db[id].name == name {
        if name != q.name {
          var id :| id in r.db && r.db[id].name == name;
          assert r'.db[id].name == name;
        }
      }
    }
  }

  /** The registry object; its three calls take the shortcuts of the source. */
  class Login {
    var db: map<string, Info>
    var names: set<string>
    var counter: nat
    var online: set<nat>

    ghost function View(): Registry
      reads this
    {
      Registry(db, names, counter, online)
    }

    ghost predicate Valid()
      reads this
    {
      NamesMatch(View())
    }

    constructor ()
      ensures Valid() && View() == FRESH
    {
      db, names, counter, online := map[], {}, 1, {};
    }

    method CreateAccount(id: string, pw: string, name: string) returns (reply: Reply)
      requires Valid()
      modifies this
      ensures Valid() && (View(), reply) == Serve(old(View()), Create(id, pw, name))
    {
      ServeKeepsNames(View(), Create(id, pw, name));
      assert db == map[] && name in names ==> false;
      if db != map[] {
        if id in db { return HasAccount; }
        if name in names { return NameTaken; }
      }
      var idx := counter;
      counter := (counter + 1) % POW64;
      db := db[id := Info(idx, pw, name)];
      names := names + {name};
      online := online + {idx};
      reply := Success(idx, name);
    }

    method LogInto(id: string, pw: string) returns (reply: Reply)
      requires Valid()
      modifies this
      ensures Valid() && (View(), reply) == Serve(old(View()), LogIn(id, pw))
    {
      if db == map[] { return NoSuchId; }
      if id !in db { return NoSuchId; }
      var info := db[id];
      if info.pw != pw { return WrongPassword; }
      if info.account in online { return AlreadyIn; }
      online := online + {info.account};
      reply := Success(info.account, info.name);
    }

    method LogOff(account: nat) returns (reply: Reply)
      requires Valid()
      modifies this
      ensures Valid() && (View(), reply) == Serve(old(View()), LogOut(account))
    {
      if online == {} { return NotIn; }
      if account !in online { return NotIn; }
      online := online - {account};
      reply := Success(account, "");
    }
  }

  // ---------------------------------------------------------------------------------------
  // Histories

  datatype History = Nothing | And(before: History, q: Request)

  ghost function After(h: History): Registry {
    match h case Nothing => FRESH case And(before, q) => Serve(After(before), q).0
  }

  ghost function LastReply(h: History): Reply
    requires h.And?
  {
    Serve(After(h.before), h.q).1
  }

  /** The ids issued by successful creates, in order. */
  ghost function Issued(h: History): seq<nat> {
    match h
    case Nothing => []
    case And(before, q) =>
      Issued(before) + if q.Create? && LastReply(h).Success? then [LastReply(h).account] else []
  }

  /** Successful events of one account, in order: true is create or login, false is logout. */
  ghost function Events(h: History, k: nat): seq<bool> {
    match h
    case Nothing => []
    case And(before, q) =>
      Events(before, k) + if LastReply(h).Success? && LastReply(h).account == k then [!q.LogOut?] else []
  }

  predicate Distinct(s: seq<nat>) { forall i, j :: 0 <= i < j < |s| ==> s[i] != s[j] }

  /** In, out, in, out, beginning with in. */
  predicate Alternates(e: seq<bool>) { forall i :: 0 <= i < |e| ==> e[i] == (i % 2 == 0) }

  /** The id of the `i`th account created: consecutive from 1, modulo 2^64. */
  function IdAt(i: nat): nat { (i + 1) % POW64 }

  lemma IdAtNext(i: nat)
    ensures IdAt(i + 1) == (IdAt(i) + 1) % POW64
  {
  }

  lemma IdsDiffer(i: nat, j: nat)
    requires i < j < POW64
    ensures IdAt(i) != IdAt(j)
  {
    assert IdAt(i) == i + 1;
    assert IdAt(j) == if j + 1 < POW64 then j + 1 else 0;
  }

  lemma {:induction false} IdsConsecutive(h: History)
    ensures After(h).counter == IdAt(|Issued(h)|)
    ensures forall i :: 0 <= i < |Issued(h)| ==> Issued(h)[i] == IdAt(i)
  {
    if h.And? {
      IdsConsecutive(h.before);
      IdAtNext(|Issued(h.before)|);
    }
  }

  /** Accounts and logged-in ids are among `ids`. */
  ghost predicate Within(r: Registry, ids: seq<nat>) {
    && (forall id :: id in r.db ==> r.db[id].account in ids)
    && (forall k :: k in r.online ==> k in ids)
  }

  lemma ServeWithin(r: Registry, q: Request, ids: seq<nat>)
    requires Within(r, ids)
    ensures Within(Serve(r, q).0, ids + [r.counter])
    ensures !(q.Create? && Serve(r, q).1.Success?) ==> Within(Serve(r, q).0, ids)
  {
    assert forall k :: k in ids ==> k in ids + [r.counter];
    assert r.counter in ids + [r.counter];
  }

  lemma ServeGrows(r: Registry, q: Request)
    ensures var (r', reply) := Serve(r, q);
      if q.Create? && reply.Success? then reply.account == r.counter && |r'.db| == |r.db| + 1 else r'.db == r.db
  {
  }

  lemma IssuedStep(h: History)
    requires h.And?
    ensures var c := h.q.Create? && LastReply(h).Success?;
      && Issued(h) == (if c then Issued(h.before) + [After(h.before).counter] else Issued(h.before))
      && |After(h).db| == |After(h.before).db| + One(c)
  {
    ServeGrows(After(h.before), h.q);
  }

  /** Every account holds an issued id, none is ever dropped, and only issued ids are logged in. */
  lemma {:induction false} AccountsHoldIssued(h: History)
    ensures |After(h).db| == |Issued(h)| && Within(After(h), Issued(h))
  {
    if h.And? {
      AccountsHoldIssued(h.before);
      IssuedStep(h);
      ServeWithin(After(h.before), h.q, Issued(h.before));
    }
  }

  /** Two ids differ as long as at most 2^64 accounts were created, and no longer. */
  lemma IdsDistinct(h: History)
    ensures Distinct(Issued(h)) <==> |Issued(h)| <= POW64
  {
    IdsConsecutive(h);
    var s := Issued(h);
    if |s| > POW64 {
      IdComesRound();
      assert s[0] == s[POW64];
    } else {
      forall i, j | 0 <= i < j < |s| ensures s[i] != s[j] { IdsDiffer(i, j); }
    }
  }

  lemma IdComesRound()
    ensures IdAt(0) == IdAt(POW64) == 1
  {
  }

  /** Every issued id is below the counter, up to the account that makes the counter come round. */
  lemma IdsBelowCounter(h: History)
    ensures (forall k :: k in Issued(h) ==> k < After(h).counter) <==> |Issued(h)| < POW64 - 1
  {
    IdsConsecutive(h);
    var s := Issued(h);
    if |s| < POW64 - 1 {
      IdSmall(|s|);
      forall i | 0 <= i < |s| ensures s[i] < After(h).counter { IdSmall(i); }
    } else {
      IdSmall(POW64 - 2);
      IdSmall(|s|);
      assert s[POW64 - 2] in s;
    }
  }

  lemma IdSmall(i: nat)
    ensures IdAt(i) < POW64 && (i + 1 < POW64 ==> IdAt(i) == i + 1)
  {
  }

  /** Over every history the names are those of the accounts, each once. */
  lemma {:induction false} NamesUnique(h: History)
    ensures NamesMatch(After(h))
  {
    if h.And? {
      NamesUnique(h.before);
      ServeKeepsNames(After(h.before), h.q);
    }
  }

  /** An account is logged in exactly when its last successful event was a create or a login. */
  lemma {:induction false} OnlineIsLastEvent(h: History, k: nat)
    ensures k in After(h).online <==> var e := Events(h, k); e != [] && e[|e| - 1]
  {
    if h.And? { OnlineIsLastEvent(h.before, k); }
  }

  /** No create issued an id that was logged in at that moment. */
  ghost predicate NoClash(h: History) {
    match h
    case Nothing => true
    case And(before, q) =>
      NoClash(before) && !(q.Create? && LastReply(h).Success? && After(before).counter in After(before).online)
  }

  lemma AlternatesSnoc(e: seq<bool>, b: bool)
    ensures Alternates(e + [b]) <==> Alternates(e) && b == (e == [] || !e[|e| - 1])
  {
    assert forall i :: 0 <= i < |e| ==> (e + [b])[i] == e[i];
    assert (e + [b])[|e|] == b;
  }

  /** The successful events of every account alternate strictly, exactly while no create clashes. */
  lemma {:induction false} EventsAlternate(h: History)
    ensures (forall k :: Alternates(Events(h, k))) <==> NoClash(h)
  {
    if h.And? {
      EventsAlternate(h.before);
      if NoClash(h) {
        forall k ensures Alternates(Events(h, k)) { EventStep(h, k); }
      } else if NoClash(h.before) {
        EventStep(h, After(h.before).counter);
      } else {
        var k :| !Alternates(Events(h.before, k));
        EventStep(h, k);
      }
    }
  }

  /** The last request created account `k` although `k` was logged in. */
  ghost predicate Clashes(h: History, k: nat)
    requires h.And?
  {
    h.q.Create? && LastReply(h) == Success(k, h.q.name) && k in After(h.before).online
  }

  lemma EventStep(h: History, k: nat)
    requires h.And?
    ensures Alternates(Events(h, k)) <==> Alternates(Events(h.before, k)) && !Clashes(h, k)
  {
    OnlineIsLastEvent(h.before, k);
    if LastReply(h).Success? && LastReply(h).account == k {
      AlternatesSnoc(Events(h.before, k), !h.q.LogOut?);
    } else {
      assert Events(h, k) == Events(h.before, k);
    }
  }

  /** Fewer than 2^64 earlier accounts: no clash. */
  lemma {:induction false} FewAccountsNoClash(h: History)
    requires |Issued(h)| <= POW64
    ensures NoClash(h)
  {
    if h.And? {
      FewAccountsNoClash(h.before);
      AccountsHoldIssued(h.before);
      IdsConsecutive(h.before);
      var s, n := Issued(h.before), |Issued(h.before)|;
      if n < POW64 {
        forall i | 0 <= i < n ensures s[i] != After(h.before).counter { IdsDiffer(i, n); }
      }
    }
  }

  /** `n` creates with different ids and names. */
  ghost function Burst(n: nat): History {
    if n == 0 then Nothing
    else And(Burst(n - 1), Create(seq(n, _ => 'a'), "", seq(n, _ => 'a')))
  }

  lemma {:induction false} BurstAllSucceed(n: nat)
    ensures |Issued(Burst(n))| == n
    ensures forall id :: id in After(Burst(n)).db ==> |id| <= n
    ensures forall name :: name in After(Burst(n)).names ==> |name| <= n
  {
    if n > 0 { BurstAllSucceed(n - 1); }
  }

  lemma {:induction false} BurstAllIn(n: nat)
    requires 0 < n
    ensures 1 in After(Burst(n)).online
  {
    if n == 1 {
      assert Burst(1).before == Nothing;
    } else {
      BurstAllIn(n - 1);
    }
  }

  /** The counter does come round: the create after 2^64 others reissues id 1 while it is logged in. */
  lemma CounterComesRound()
    ensures !NoClash(Burst(POW64 + 1)) && !Distinct(Issued(Burst(POW64 + 1)))
  {
    var h := Burst(POW64 + 1);
    BurstAllSucceed(POW64);
    BurstAllSucceed(POW64 + 1);
    BurstAllIn(POW64);
    IdsConsecutive(h.before);
    IdComesRound();
    IdsDistinct(h);
    LastSucceeds(h);
  }

  lemma LastSucceeds(h: History)
    requires h.And? && |Issued(h)| > |Issued(h.before)|
    ensures h.q.Create? && LastReply(h).Success?
  {
  }

  // ---------------------------------------------------------------------------------------
  // Every reply, from the requests before it

  /** The account of the successful create with this id: the id it was issued, its password and name. */
  ghost function CreatedWith(h: History, id: string): Option<Info> {
    match h
    case Nothing => None
    case And(before, q) =>
      if q.Create? && q.id == id && LastReply(h).Success? then Some(Info(LastReply(h).account, q.pw, q.name))
      else CreatedWith(before, id)
  }

  /** Some successful create had this name. */
  ghost predicate NameGiven(h: History, name: string) {
    h.And? && ((h.q.Create? && h.q.name == name && LastReply(h).Success?) || NameGiven(h.before, name))
  }

  /** The last successful event of the account was a create or a login. */
  ghost predicate LoggedIn(h: History, k: nat) { var e := Events(h, k); e != [] && e[|e| - 1] }

  /** It was a logout. */
  ghost predicate LoggedOut(h: History, k: nat) { var e := Events(h, k); e != [] && !e[|e| - 1] }

  lemma {:induction false} AccountsAreCreated(h: History, id: string)
    ensures CreatedWith(h, id) == if id in After(h).db then Some(After(h).db[id]) else None
    ensures CreatedWith(h, id).Some? ==> Events(h, CreatedWith(h, id).value.account) != []
  {
    if h.And? { AccountsAreCreated(h.before, id); }
  }

  lemma {:induction false} NamesAreGiven(h: History, name: string)
    ensures NameGiven(h, name) <==> name in After(h).names
  {
    if h.And? { NamesAreGiven(h.before, name); }
  }

  /** A create fails exactly if an earlier create took its id, or else its name; it gets the next id. */
  lemma CreateReplies(h: History, id: string, pw: string, name: string)
    ensures LastReply(And(h, Create(id, pw, name)))
         == if CreatedWith(h, id).Some? then HasAccount
            else if NameGiven(h, name) then NameTaken
            else Success(IdAt(|Issued(h)|), name)
  {
    AccountsAreCreated(h, id);
    NamesAreGiven(h, name);
    IdsConsecutive(h);
  }

  /**
   * A login succeeds exactly if an earlier create with this id carried this password and its account
   * is logged out; it answers with that account and name.  The refusals come in this order: no such
   * id, another password, logged in already.
   */
  lemma LogInReplies(h: History, id: string, pw: string)
    ensures var created, reply := CreatedWith(h, id), LastReply(And(h, LogIn(id, pw)));
      && (reply == NoSuchId <==> created.None?)
      && (reply == WrongPassword <==> created.Some? && created.value.pw != pw)
      && (reply == AlreadyIn <==> created.Some? && created.value.pw == pw && LoggedIn(h, created.value.account))
      && (reply.Success? <==> created.Some? && created.value.pw == pw && LoggedOut(h, created.value.account))
      && (reply.Success? ==> reply == Success(created.value.account, created.value.name))
  {
    AccountsAreCreated(h, id);
    if CreatedWith(h, id).Some? { OnlineIsLastEvent(h, CreatedWith(h, id).value.account); }
  }

  /** A logout succeeds exactly if the account is logged in. */
  lemma LogOutReplies(h: History, k: nat)
    ensures LastReply(And(h, LogOut(k))) == if LoggedIn(h, k) then Success(k, "") else NotIn
  {
    OnlineIsLastEvent(h, k);
  }
}
