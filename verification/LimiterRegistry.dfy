/** drivers/aliyundrive_open/limiter.go: rate limiters shared per user and counted by reference, and the drivers that
    take and return them in Init and Drop (drivers/aliyundrive_open/driver.go). */
module LimiterRegistry {
  import opened Options

  type User = string

  /** The limiter for the first request of a driver, before its user is known. */
  const GLOBAL: User := ""

  // ---------- The registry ----------

  /** A limiter object, told apart by its serial number, and its counter. */
  datatype Entry = Entry(serial: nat, usedBy: int)

  type Table = map<User, Entry>

  function Cleaned(t: Table): Table {
    map u | u in t && !(t[u].usedBy <= 0 && u != GLOBAL) :: t[u]
  }

  /** The limiter of the user with one more use; a new one gets the next serial number. */
  function Taken(t: Table, user: User, next: nat): Table {
    t[user := if user in t then t[user].(usedBy := t[user].usedBy + 1) else Entry(next, 1)]
  }

  /** What getLimiterForUser leaves behind. */
  function Acquired(t: Table, user: User, next: nat): Table {
    Cleaned(Taken(t, user, next))
  }

  /** What free leaves behind; a limiter that is not registered any more does not matter. */
  function Freed(t: Table, serial: nat): Table {
    map u | u in t :: if t[u].serial == serial then t[u].(usedBy := t[u].usedBy - 1) else t[u]
  }

  /** The users whose limiters the clean-up deletes when `user` takes one. */
  function Idle(t: Table, user: User): set<User> {
    set u | u in t && t[u].usedBy <= 0 && u != GLOBAL && u != user
  }

  lemma AcquiredIs(t: Table, user: User, next: nat)
    ensures Acquired(t, user, next) == Cleaned(Taken(t, user, next))
  {
  }

  lemma IdleAfterTaking(t: Table, user: User, next: nat)
    requires ValidTable(t, next)
    ensures Idle(Taken(t, user, next), GLOBAL) == Idle(t, user)
  {
  }

  /** The registered objects when `user` has taken `lim`. */
  ghost function Retained(m: map<User, Limiter>, t: Table, user: User, lim: Limiter): map<User, Limiter> {
    m[user := lim] - Idle(t, user)
  }

  /** The same objects are registered for all users whose limiters are in use. */
  ghost predicate KeepsUsed(m: map<User, Limiter>, t: Table, n: map<User, Limiter>) {
    forall u :: u in m && UsesOf(t, u) > 0 ==> u in n && n[u] == m[u]
  }

  /** A limiter in use survives the clean-up, whichever limiter is taken. */
  lemma StaysRegistered(m: map<User, Limiter>, t: Table, user: User, lim: Limiter)
    requires user in m ==> lim == m[user]
    ensures KeepsUsed(m, t, Retained(m, t, user, lim))
    ensures Retained(m, t, user, lim).Values <= m.Values + {lim}
    ensures user in Retained(m, t, user, lim) && Retained(m, t, user, lim)[user] == lim
    ensures m[user := lim] - Idle(t, user) == Retained(m, t, user, lim)
  {
  }

  /** One use more for a user, if any, and all other counters as they were. */
  ghost predicate OneMore(t: Table, after: Table, user: Option<User>) {
    forall u :: UsesOf(after, u) == UsesOf(t, u) + if user == Some(u) then 1 else 0
  }

  lemma StaysAgain(m: map<User, Limiter>, t: Table, n: map<User, Limiter>, t': Table, o: map<User, Limiter>)
    requires KeepsUsed(m, t, n) && KeepsUsed(n, t', o) && OneMore(t, t', None)
    ensures KeepsUsed(m, t, o)
  {
  }

  class Limiter {
    const serial: nat
    var usedBy: int

    constructor (n: nat)
      ensures serial == n && usedBy == 1
    {
      serial, usedBy := n, 1;
    }

    method Free()
      modifies this
      ensures usedBy == old(usedBy) - 1
    {
      usedBy := usedBy - 1;
    }
  }

  class Registry {
    var limiters: map<User, Limiter>
    var created: nat

    ghost function View(): Table
      reads this, limiters.Values
    {
      map u | u in limiters :: Entry(limiters[u].serial, limiters[u].usedBy)
    }

    /** Serial numbers tell the registered limiters apart, and no counter is negative. */
    ghost predicate Valid()
      reads this, limiters.Values
    {
      && (forall u :: u in limiters ==> limiters[u].serial < created && limiters[u].usedBy >= 0)
      && forall u, v :: u in limiters && v in limiters && u != v ==> limiters[u].serial != limiters[v].serial
    }

    /** The registered limiter of this user, which someone holds. */
    ghost predicate InUse(user: User, lim: Limiter)
      reads this, lim
    {
      user in limiters && limiters[user] == lim && lim.usedBy > 0
    }

    constructor ()
      ensures Valid() && View() == map[] && created == 0 && limiters == map[]
    {
      limiters, created := map[], 0;
    }

    method GetLimiterForUser(user: User) returns (lim: Limiter)
      requires Valid()
      modifies this, limiters.Values
      ensures Valid() && View() == Acquired(old(View()), user, old(created))
      ensures InUse(user, lim) && KeepsUsed(old(limiters), old(View()), limiters)
      ensures limiters == Retained(old(limiters), old(View()), user, lim)
      ensures fresh(limiters.Values - old(limiters.Values))
      ensures user in old(limiters) ==> lim == old(limiters[user])
      ensures created == if user in old(limiters) then old(created) else old(created) + 1
      ensures user !in old(limiters) ==> fresh(lim) && lim.serial == old(created)
    {
      hide Taken, Cleaned, Idle, Acquired, KeepsUsed, UsesOf, Retained, ValidTable, Registry.View, Registry.Valid;
      ghost var before, next := View(), created;
      ValidView(this);
      IdleAfterTaking(before, user, next);
      lim := LookUp(user);
      CleanUp();
      StaysRegistered(old(limiters), before, user, lim);
      AcquiredIs(before, user, next);
    }

    /** The body of getLimiterForUser without the deferred part. */
    method LookUp(user: User) returns (lim: Limiter)
      requires Valid()
      modifies this, limiters.Values
      ensures Valid() && View() == Taken(old(View()), user, old(created))
      ensures lim.usedBy > 0 && limiters == old(limiters)[user := lim]
      ensures created == if user in old(limiters) then old(created) else old(created) + 1
      ensures if user in old(limiters) then lim == old(limiters[user]) else fresh(lim) && lim.serial == old(created)
    {
      if user in limiters {
        lim := limiters[user];
        lim.usedBy := lim.usedBy + 1;
      } else {
        lim := new Limiter(created);
        created := created + 1;
      }
      limiters := limiters[user := lim];
      ViewIsTaken(user, lim);
      hide Taken;
    }

    twostate lemma ViewIsTaken(user: User, new lim: Limiter)
      requires limiters == old(limiters)[user := lim]
      requires forall u :: u in old(limiters) && u != user ==> limiters[u].usedBy == old(limiters[u].usedBy)
      requires if user in old(limiters) then lim == old(limiters[user]) && lim.usedBy == old(limiters[user].usedBy) + 1
        else lim.serial == old(created) && lim.usedBy == 1
      ensures View() == Taken(old(View()), user, old(created))
    {
    }

    /** The deferred clean-up: deletes the limiters that are not used any more, except the global one. */
    method CleanUp()
      requires Valid()
      modifies this`limiters
      ensures Valid() && View() == Cleaned(old(View()))
      ensures limiters == old(limiters) - Idle(old(View()), GLOBAL)
    {
      var ids := limiters.Keys;
      while ids != {}
        invariant ids <= old(limiters.Keys)
        invariant forall u :: u in limiters <==>
          u in old(limiters) && (u in ids || u == GLOBAL || old(limiters[u].usedBy) > 0)
        invariant forall u :: u in limiters ==> limiters[u] == old(limiters[u])
        decreases |ids|
      {
        var id :| id in ids;
        ids := ids - {id};
        if limiters[id].usedBy <= 0 && id != GLOBAL {
          limiters := limiters - {id};
        }
      }
      ViewIsCleaned();
      hide Cleaned, View, Valid, Idle;
    }

    /** `free`, which locks the registry. */
    method Free(ghost user: User, lim: Limiter)
      requires Valid() && InUse(user, lim)
      modifies lim
      ensures Valid() && View() == Freed(old(View()), lim.serial) && lim.usedBy == old(lim.usedBy) - 1
    {
      lim.Free();
      ViewIsFreed(lim);
      hide Freed;
    }

    twostate lemma ViewIsFreed(lim: Limiter)
      requires old(Valid()) && lim in limiters.Values && limiters == old(limiters)
      requires forall u :: u in limiters ==>
        limiters[u].usedBy == old(limiters[u].usedBy) - if limiters[u] == lim then 1 else 0
      ensures View() == Freed(old(View()), lim.serial)
    {
    }

    /** Deleting entries leaves the counters of the others alone. */
    twostate lemma ViewIsCleaned()
      requires forall u :: u in limiters <==> u in old(limiters) && (u == GLOBAL || old(limiters[u].usedBy) > 0)
      requires forall u :: u in limiters ==>
        limiters[u] == old(limiters[u]) && limiters[u].usedBy == old(limiters[u].usedBy)
      requires created == old(created)
      ensures old(Valid()) ==> Valid()
      ensures limiters == old(limiters) - Idle(old(View()), GLOBAL)
      ensures View() == Cleaned(old(View()))
    {
    }
  }

  /** The limiter field of the driver, with Init and Drop run without interruption. */
  class AliyundriveOpen {
    var limiter: Limiter?

    constructor ()
      ensures limiter == null
    {
      limiter := null;
    }

    /** Taking the global limiter for the first request, and returning it. A limiter that the driver still holds is
        overwritten, not returned. */
    method FirstRequest(reg: Registry)
      requires reg.Valid()
      modifies this, reg, reg.limiters.Values
      ensures reg.Valid() && reg.View() == Bracketed(old(reg.View()), old(reg.created))
      ensures reg.created == NextSerial(old(reg.View()), old(reg.created))
      ensures GLOBAL in old(reg.limiters) ==> limiter == old(reg.limiters[GLOBAL])
      ensures fresh(reg.limiters.Values - old(reg.limiters.Values)) && limiter != null
      ensures KeepsUsed(old(reg.limiters), old(reg.View()), reg.limiters)
      ensures OneMore(old(reg.View()), reg.View(), None)
    {
      hide Taken, Cleaned, Acquired, Freed, Idle, Retained, KeepsUsed, OneMore, UsesOf, ValidTable, Registry.Valid,
        Registry.View, Registry.InUse;
      ValidView(reg);
      ViewHasAll(reg);
      BracketKeepsUses(reg.View(), reg.created);
      limiter := reg.GetLimiterForUser(GLOBAL);
      InUseAs(reg, GLOBAL, limiter);
      reg.Free(GLOBAL, limiter);
    }

    /** Taking the limiter of the user. What was in use at an earlier state with the same uses stays registered. */
    method SecondTake(reg: Registry, user: User, ghost m: map<User, Limiter>, ghost t: Table)
      requires reg.Valid() && KeepsUsed(m, t, reg.limiters) && OneMore(t, reg.View(), None)
      modifies this, reg, reg.limiters.Values
      ensures reg.Valid() && reg.View() == Acquired(old(reg.View()), user, old(reg.created))
      ensures limiter != null && reg.InUse(user, limiter)
      ensures KeepsUsed(m, t, reg.limiters) && OneMore(t, reg.View(), Some(user))
      ensures fresh(reg.limiters.Values - old(reg.limiters.Values))
    {
      hide Acquired, Retained, OneMore, UsesOf, KeepsUsed, ValidTable, Registry.View, Registry.Valid, Registry.InUse;
      ValidView(reg);
      AcquiredCounts(t, reg.View(), user, reg.created);
      limiter := reg.GetLimiterForUser(user);
      StaysAgain(m, t, old(reg.limiters), old(reg.View()), reg.limiters);
    }

    /** `answer` is the user that the first request reports, or nothing if it fails. The limiter that a driver gets is
        registered and in use, and whatever other drivers hold stays registered, for this user and all others. */
    method Init(reg: Registry, answer: Option<User>)
      requires reg.Valid()
      modifies this, reg, reg.limiters.Values
      ensures reg.Valid() && reg.View() == Initialized(old(reg.View()), old(reg.created), answer)
      ensures answer.None? ==> limiter == null
      ensures answer.Some? ==> limiter != null && reg.InUse(answer.value, limiter)
      ensures KeepsUsed(old(reg.limiters), old(reg.View()), reg.limiters)
      ensures OneMore(old(reg.View()), reg.View(), answer)
      ensures fresh(reg.limiters.Values - old(reg.limiters.Values))
    {
      hide Acquired, Bracketed, NextSerial, OneMore, KeepsUsed, UsesOf, Registry.View, Registry.Valid, Registry.InUse;
      ghost var m, t := reg.limiters, reg.View();
      FirstRequest(reg);
      if answer.None? {
        limiter := null;
      } else {
        SecondTake(reg, answer.value, m, t);
      }
    }

    /** `user` is the one that Init got its limiter for. */
    method Drop(reg: Registry, ghost user: User)
      requires reg.Valid() && (limiter != null ==> reg.InUse(user, limiter))
      modifies this, limiter
      ensures reg.Valid() && limiter == null
      ensures reg.View() == if old(limiter) == null then old(reg.View())
        else Freed(old(reg.View()), old(limiter).serial)
      ensures OneMore(reg.View(), old(reg.View()), if old(limiter) == null then None else Some(user))
    {
      ghost var before := reg.View();
      if limiter != null {
        FreedTakesOneUse(before, reg.created, user) by { ValidView(reg); }
        hide Freed, UsesOf, OneMore, Registry.Valid;
        reg.Free(user, limiter);
      }
      limiter := null;
    }
  }

  /** The global limiter was taken and returned. */
  function Bracketed(t: Table, next: nat): Table {
    var u := Acquired(t, GLOBAL, next);
    if GLOBAL in u then Freed(u, u[GLOBAL].serial) else u
  }

  /** The registry after an Init that nothing interrupts. */
  function Initialized(t: Table, next: nat, answer: Option<User>): Table {
    match answer
    case None => Bracketed(t, next)
    case Some(user) => Acquired(Bracketed(t, next), user, NextSerial(t, next))
  }

  function NextSerial(t: Table, next: nat): nat {
    if GLOBAL in t then next else next + 1
  }

  function UsesOf(t: Table, user: User): int {
    if user in t then t[user].usedBy else 0
  }

  /** No counter is negative, and serial numbers tell the limiters apart. */
  ghost predicate ValidTable(t: Table, next: nat) {
    && (forall u :: u in t ==> t[u].usedBy >= 0 && t[u].serial < next)
    && forall u, v :: u in t && v in t && u != v ==> t[u].serial != t[v].serial
  }

  /** The bracket around the first request leaves all counters as they were. */
  lemma BracketKeepsUses(t: Table, next: nat)
    requires ValidTable(t, next)
    ensures OneMore(t, Bracketed(t, next), None)
  {
    var taken := Taken(t, GLOBAL, next);
    var serial := taken[GLOBAL].serial;
    forall u ensures UsesOf(Bracketed(t, next), u) == UsesOf(t, u) {
      if u in t && t[u].usedBy > 0 && u != GLOBAL {
        assert u in Cleaned(taken) && taken[u].serial != serial;
      }
    }
  }

  /** Taking a limiter adds one use to it; the clean-up takes none away. */
  lemma AcquiredCounts(t: Table, now: Table, user: User, next: nat)
    requires ValidTable(now, next) && OneMore(t, now, None)
    ensures OneMore(t, Acquired(now, user, next), Some(user))
  {
  }

  /** Init adds one use to the limiter of its user, if it gets one, and leaves all other counters as they were. */
  lemma InitAddsOneUse(t: Table, next: nat, answer: Option<User>)
    requires ValidTable(t, next)
    ensures OneMore(t, Initialized(t, next, answer), answer)
  {
    BracketKeepsUses(t, next);
    if answer.Some? {
      BracketStaysValid(t, next);
      hide Bracketed, Acquired, OneMore, ValidTable, NextSerial;
      AcquiredCounts(t, Bracketed(t, next), answer.value, NextSerial(t, next));
    }
  }

  lemma BracketStaysValid(t: Table, next: nat)
    requires ValidTable(t, next)
    ensures ValidTable(Bracketed(t, next), NextSerial(t, next))
  {
  }

  /** Returning a registered limiter takes off one use. */
  lemma FreedTakesOneUse(t: Table, next: nat, user: User)
    requires ValidTable(t, next) && user in t
    ensures OneMore(Freed(t, t[user].serial), t, Some(user))
  {
  }

  lemma UsesNotNegative(reg: Registry)
    requires reg.Valid()
    ensures forall u :: UsesOf(reg.View(), u) >= 0
  {
  }

  lemma ValidView(reg: Registry)
    requires reg.Valid()
    ensures ValidTable(reg.View(), reg.created)
  {
  }

  lemma ViewHasAll(reg: Registry)
    ensures reg.View().Keys == reg.limiters.Keys
  {
  }

  lemma InUseAs(reg: Registry, user: User, lim: Limiter)
    requires reg.InUse(user, lim)
    ensures user in reg.View() && reg.View()[user].serial == lim.serial
    ensures user in reg.limiters && reg.limiters[user] == lim
  {
  }

  /** Who is registered and has uses left is in use. */
  lemma StillInUse(reg: Registry, user: User, lim: Limiter)
    requires user in reg.limiters && reg.limiters[user] == lim && UsesOf(reg.View(), user) > 0
    ensures reg.InUse(user, lim)
  {
  }

  lemma InUseCounts(reg: Registry, user: User, lim: Limiter)
    requires reg.InUse(user, lim)
    ensures user in reg.limiters && reg.limiters[user] == lim && UsesOf(reg.View(), user) > 0
  {
  }

  lemma DifferentLimiters(reg: Registry, user: User, other: User)
    requires reg.Valid() && user != other && user in reg.limiters && other in reg.limiters
    ensures reg.limiters[user] != reg.limiters[other]
  {
  }

  /** Another driver is initialized, and the limiter that is in use stays so. */
  method InitBeside(reg: Registry, e: AliyundriveOpen, answer: Option<User>, ghost user: User, ghost lim: Limiter)
    requires reg.Valid() && reg.InUse(user, lim)
    modifies e, reg, reg.limiters.Values
    ensures reg.Valid() && reg.InUse(user, lim) && fresh(reg.limiters.Values - old(reg.limiters.Values))
    ensures if answer.None? then e.limiter == null else e.limiter != null && reg.InUse(answer.value, e.limiter)
    ensures OneMore(old(reg.View()), reg.View(), answer)
  {
    InUseCounts(reg, user, lim);
    hide Initialized, Registry.View, Registry.Valid, Registry.InUse, UsesOf;
    e.Init(reg, answer);
    StillInUse(reg, user, lim);
  }

  /** Two drivers of one user and one of another, against any registry: the two get the same limiter, whatever else
      is initialized between them, and the third another one. */
  method Share(reg: Registry, d: AliyundriveOpen, e: AliyundriveOpen, f: AliyundriveOpen, user: User, other: User)
    requires reg.Valid() && d != e && d != f && e != f && user != other
    modifies reg, reg.limiters.Values, d, e, f
    ensures reg.Valid() && fresh(reg.limiters.Values - old(reg.limiters.Values))
    ensures d.limiter != null && f.limiter != null && d.limiter == e.limiter && d.limiter != f.limiter
    ensures reg.InUse(user, d.limiter) && reg.InUse(other, f.limiter)
    ensures forall u ::
      UsesOf(reg.View(), u) == UsesOf(old(reg.View()), u) + if u == user then 2 else if u == other then 1 else 0
  {
    hide Initialized, Registry.View, Registry.Valid, Registry.InUse, UsesOf;
    d.Init(reg, Some(user));
    InitBeside(reg, f, Some(other), user, d.limiter);
    InUseCounts(reg, user, d.limiter);
    InUseCounts(reg, other, f.limiter);
    e.Init(reg, Some(user));
    ghost var m := reg.limiters;
    InUseCounts(reg, user, e.limiter);
    assert d.limiter == m[user] == e.limiter && f.limiter == m[other];
    StillInUse(reg, other, f.limiter);
    DifferentLimiters(reg, user, other);
  }

  /** When all three are dropped, every counter is back where it was. */
  method ShareAndReturn(reg: Registry, d: AliyundriveOpen, e: AliyundriveOpen, f: AliyundriveOpen, user: User,
      other: User)
    returns (ghost shared: Limiter, ghost single: Limiter)
    requires reg.Valid() && d != e && d != f && e != f && user != other
    modifies reg, reg.limiters.Values, d, e, f
    ensures reg.Valid() && shared != single && d.limiter == e.limiter == f.limiter == null
    ensures user in reg.limiters && reg.limiters[user] == shared
    ensures other in reg.limiters && reg.limiters[other] == single
    ensures forall u :: UsesOf(reg.View(), u) == UsesOf(old(reg.View()), u)
  {
    hide Registry.View, Registry.Valid, Registry.InUse, UsesOf;
    UsesNotNegative(reg);
    Share(reg, d, e, f, user, other);
    shared, single := d.limiter, f.limiter;
    InUseCounts(reg, user, shared);
    InUseCounts(reg, other, single);
    d.Drop(reg, user);
    StillInUse(reg, other, single);
    f.Drop(reg, other);
    StillInUse(reg, user, shared);
    e.Drop(reg, user);
  }

  // ---------- Drivers ----------

  /** The limiter field of a driver, and how far its Init is: it has taken the global limiter, or it has given that
      back and not yet taken the one of its user. */
  datatype Driver = NoLimiter | Holding(serial: nat, user: User) | Requesting(serial: nat) | Between

  /** `leaked` holds the limiters that drivers dropped without returning them. */
  datatype Sys = Sys(table: Table, created: nat, drivers: map<nat, Driver>, leaked: multiset<nat>)

  datatype Action =
    | InitStart(d: nat)
    | InitFail(d: nat)
    | InitFree(d: nat)
    | InitAcquire(d: nat, user: User)
    | Drop(d: nat)

  const INITIAL := Sys(map[], 0, map[], multiset{})

  function DriverOf(s: Sys, d: nat): Driver {
    if d in s.drivers then s.drivers[d] else NoLimiter
  }

  function SerialOf(d: Driver): Option<nat> {
    match d
    case Holding(serial, _) => Some(serial)
    case Requesting(serial) => Some(serial)
    case _ => None
  }

  /** A driver forgets the limiter it holds. */
  function Leaked(s: Sys, d: nat): Sys
    requires DriverOf(s, d).Holding?
  {
    s.(leaked := s.leaked + multiset{DriverOf(s, d).serial}, drivers := s.drivers[d := NoLimiter])
  }

  /** Init may be called on any driver that is not in the middle of Init, also on one that holds a limiter. */
  predicate Enabled(s: Sys, a: Action) {
    match a
    case InitStart(d) => DriverOf(s, d).NoLimiter? || DriverOf(s, d).Holding?
    case InitFail(d) => DriverOf(s, d).Requesting?
    case InitFree(d) => DriverOf(s, d).Requesting?
    case InitAcquire(d, _) => DriverOf(s, d).Between?
    case Drop(d) => DriverOf(s, d).NoLimiter? || DriverOf(s, d).Holding?
  }

  function Take(s: Sys, d: nat, user: User, global: bool): Sys {
    var serial := if user in s.table then s.table[user].serial else s.created;
    s.(table := Acquired(s.table, user, s.created),
       created := if user in s.table then s.created else s.created + 1,
       drivers := s.drivers[d := if global then Requesting(serial) else Holding(serial, user)])
  }

  function Return(s: Sys, d: nat, then_: Driver): Sys {
    match SerialOf(DriverOf(s, d))
    case Some(serial) => s.(table := Freed(s.table, serial), drivers := s.drivers[d := then_])
    case None => s.(drivers := s.drivers[d := then_])
  }

  function Next(s: Sys, a: Action): Sys
    requires Enabled(s, a)
  {
    match a
    case InitStart(d) =>
      Take(if DriverOf(s, d).Holding? then Leaked(s, d) else s, d, GLOBAL, true)
    case InitFail(d) => Return(s, d, NoLimiter)
    case InitFree(d) => Return(s, d, Between)
    case InitAcquire(d, user) => Take(s, d, user, false)
    case Drop(d) => Return(s, d, NoLimiter)
  }

  /** Init without interruption is its steps one after the other, whether or not the driver still holds a limiter. */
  lemma InitIsItsSteps(s: Sys, d: nat, user: User)
    requires Enabled(s, InitStart(d))
    ensures var s1 := Next(s, InitStart(d));
      && Enabled(s1, InitFree(d)) && Enabled(s1, InitFail(d))
      && Next(s1, InitFail(d)).table == Initialized(s.table, s.created, None)
      && Enabled(Next(s1, InitFree(d)), InitAcquire(d, user))
      && Next(Next(s1, InitFree(d)), InitAcquire(d, user)).table == Initialized(s.table, s.created, Some(user))
  {
    var s1 := Next(s, InitStart(d));
    assert GLOBAL in s1.table && SerialOf(DriverOf(s1, d)) == Some(s1.table[GLOBAL].serial);
    assert GLOBAL in Freed(s1.table, s1.table[GLOBAL].serial);
    var s2 := Next(s1, InitFree(d));
    assert s2.created == if GLOBAL in s.table then s.created else s.created + 1;
    hide Freed, Acquired;
  }

  // ---------- What every step keeps ----------

  ghost function Holders(s: Sys, serial: nat): set<nat> {
    set d | d in s.drivers && SerialOf(s.drivers[d]) == Some(serial)
  }

  /** The counter is the number of holders, plus what was leaked. */
  ghost predicate Counted(s: Sys) {
    forall u :: u in s.table ==> s.table[u].usedBy == |Holders(s, s.table[u].serial)| + s.leaked[s.table[u].serial]
  }

  /** Holders of one user's limiter hold the object in the registry, which therefore never was deleted. */
  ghost predicate Shared(s: Sys) {
    && (forall d :: d in s.drivers && s.drivers[d].Holding? ==>
          s.drivers[d].user in s.table && s.table[s.drivers[d].user].serial == s.drivers[d].serial)
    && (forall d :: d in s.drivers && s.drivers[d].Requesting? ==>
          GLOBAL in s.table && s.table[GLOBAL].serial == s.drivers[d].serial)
  }

  ghost predicate Numbered(s: Sys) {
    && (forall u :: u in s.table ==> s.table[u].serial < s.created)
    && (forall u, v :: u in s.table && v in s.table && u != v ==> s.table[u].serial != s.table[v].serial)
    && (forall d :: d in s.drivers && SerialOf(s.drivers[d]).Some? ==> SerialOf(s.drivers[d]).value < s.created)
    && (forall n :: n in s.leaked ==> n < s.created)
    && (forall d :: d in s.drivers && !s.drivers[d].NoLimiter? ==> s.created > 0)
    && (s.created > 0 ==> GLOBAL in s.table)
  }

  ghost predicate Inv(s: Sys) {
    Counted(s) && Shared(s) && Numbered(s)
  }

  // ---------- The effect of each part of a step ----------

  lemma HoldersOfOthers(s: Sys, t: Sys, d: nat, serial: nat)
    requires forall e :: e != d ==> DriverOf(s, e) == DriverOf(t, e)
    ensures Holders(t, serial) - {d} == Holders(s, serial) - {d}
  {
    forall e | e != d ensures e in Holders(t, serial) <==> e in Holders(s, serial) {
      assert DriverOf(s, e) == DriverOf(t, e);
    }
  }

  /** One driver changes: the holders of a limiter change by that driver alone. */
  lemma HoldersChange(s: Sys, d: nat, v: Driver, serial: nat)
    ensures var t := s.(drivers := s.drivers[d := v]);
      |Holders(t, serial)| == |Holders(s, serial)|
        - (if SerialOf(DriverOf(s, d)) == Some(serial) then 1 else 0) + (if SerialOf(v) == Some(serial) then 1 else 0)
  {
    var t := s.(drivers := s.drivers[d := v]);
    HoldersOfOthers(s, t, d, serial);
    assert d in Holders(s, serial) <==> SerialOf(DriverOf(s, d)) == Some(serial);
    assert d in Holders(t, serial) <==> SerialOf(v) == Some(serial);
    Size(Holders(s, serial), d);
    Size(Holders(t, serial), d);
  }

  lemma Size(a: set<nat>, d: nat)
    ensures |a| == |a - {d}| + (if d in a then 1 else 0)
  {
    if d in a {
      assert a == (a - {d}) + {d};
    } else {
      assert a == a - {d};
    }
  }

  lemma NoHoldersYet(s: Sys)
    requires Numbered(s)
    ensures Holders(s, s.created) == {} && s.leaked[s.created] == 0
  {
    assert s.created !in s.leaked;
  }

  ghost predicate HoldsNothing(s: Sys, d: nat) {
    SerialOf(DriverOf(s, d)).None?
  }

  function TakenBy(s: Sys, d: nat, user: User, global: bool): Sys {
    var serial := if user in s.table then s.table[user].serial else s.created;
    s.(table := Taken(s.table, user, s.created),
       created := if user in s.table then s.created else s.created + 1,
       drivers := s.drivers[d := if global then Requesting(serial) else Holding(serial, user)])
  }

  lemma TakenCounted(s: Sys, d: nat, user: User, global: bool)
    requires Inv(s) && HoldsNothing(s, d)
    ensures Counted(TakenBy(s, d, user, global))
  {
    NoHoldersYet(s);
    var t := TakenBy(s, d, user, global);
    forall u | u in t.table ensures t.table[u].usedBy == |Holders(t, t.table[u].serial)| + t.leaked[t.table[u].serial] {
      HoldersChange(s, d, t.drivers[d], t.table[u].serial);
      assert Holders(t, t.table[u].serial) == Holders(s.(drivers := t.drivers), t.table[u].serial);
    }
  }

  lemma TakenShared(s: Sys, d: nat, user: User, global: bool)
    requires Inv(s) && HoldsNothing(s, d) && (global ==> user == GLOBAL)
    ensures Shared(TakenBy(s, d, user, global))
  {
  }

  lemma TakenNumbered(s: Sys, d: nat, user: User, global: bool)
    requires Inv(s) && HoldsNothing(s, d) && (user == GLOBAL || s.created > 0)
    ensures Numbered(TakenBy(s, d, user, global))
  {
  }

  /** The clean-up deletes no limiter that anyone holds, and not the global one. */
  lemma CleanedKeeps(s: Sys)
    requires Inv(s)
    ensures Inv(s.(table := Cleaned(s.table)))
  {
    var t := s.(table := Cleaned(s.table));
    forall d | d in s.drivers && SerialOf(s.drivers[d]).Some?
      ensures forall u :: u in s.table && s.table[u].serial == SerialOf(s.drivers[d]).value ==> u in t.table
    {
      var serial := SerialOf(s.drivers[d]).value;
      assert d in Holders(s, serial);
      assert Holders(s, serial) != {};
    }
    forall serial: nat ensures Holders(t, serial) == Holders(s, serial) {
    }
    assert Counted(t) && Numbered(t);
    assert Shared(t);
  }

  lemma TakeKeeps(s: Sys, d: nat, user: User, global: bool)
    requires Inv(s) && HoldsNothing(s, d) && (user == GLOBAL || (!global && s.created > 0))
    ensures Inv(Take(s, d, user, global))
  {
    TakenCounted(s, d, user, global);
    TakenShared(s, d, user, global);
    TakenNumbered(s, d, user, global);
    hide Counted, Shared, Numbered, Cleaned, Taken;
    CleanedKeeps(TakenBy(s, d, user, global));
  }

  lemma ReturnCounted(s: Sys, d: nat, v: Driver)
    requires Inv(s) && SerialOf(v).None?
    ensures Counted(Return(s, d, v))
  {
    var t := Return(s, d, v);
    forall u | u in t.table ensures t.table[u].usedBy == |Holders(t, t.table[u].serial)| + t.leaked[t.table[u].serial] {
      var serial := s.table[u].serial;
      HoldersChange(s, d, v, serial);
      assert Holders(t, serial) == Holders(s.(drivers := t.drivers), serial);
      hide Holders;
    }
  }

  lemma ReturnShared(s: Sys, d: nat, v: Driver)
    requires Inv(s) && SerialOf(v).None?
    ensures Shared(Return(s, d, v))
  {
    hide Counted, Holders;
  }

  lemma ReturnNumbered(s: Sys, d: nat, v: Driver)
    requires Inv(s) && SerialOf(v).None? && (v.NoLimiter? || s.created > 0)
    ensures Numbered(Return(s, d, v))
  {
    hide Counted, Holders, Shared;
  }

  lemma ReturnKeeps(s: Sys, d: nat, v: Driver)
    requires Inv(s) && SerialOf(v).None? && (v.NoLimiter? || s.created > 0)
    ensures Inv(Return(s, d, v))
  {
    ReturnCounted(s, d, v);
    ReturnShared(s, d, v);
    ReturnNumbered(s, d, v);
  }

  lemma LeakKeeps(s: Sys, d: nat)
    requires Inv(s) && DriverOf(s, d).Holding?
    ensures Inv(Leaked(s, d))
  {
    var t := Leaked(s, d);
    forall u | u in t.table ensures t.table[u].usedBy == |Holders(t, t.table[u].serial)| + t.leaked[t.table[u].serial] {
      HoldersChange(s, d, NoLimiter, t.table[u].serial);
      assert Holders(t, t.table[u].serial) == Holders(s.(drivers := t.drivers), t.table[u].serial);
    }
    assert Shared(t);
    assert Numbered(t);
  }

  lemma InvStep(s: Sys, a: Action)
    requires Inv(s) && Enabled(s, a)
    ensures Inv(Next(s, a))
  {
    hide Counted, Shared, Take, Return, Acquired;
    match a
    case InitStart(d) =>
      if DriverOf(s, d).Holding? {
        LeakKeeps(s, d);
        TakeKeeps(Leaked(s, d), d, GLOBAL, true);
      } else {
        TakeKeeps(s, d, GLOBAL, true);
      }
    case InitFail(d) => ReturnKeeps(s, d, NoLimiter);
    case InitFree(d) => ReturnKeeps(s, d, Between);
    case InitAcquire(d, user) => TakeKeeps(s, d, user, false);
    case Drop(d) => ReturnKeeps(s, d, NoLimiter);
  }

  /** Whenever a driver takes a limiter, all limiters that nobody uses any more are gone. */
  lemma NothingIdleIsKept(s: Sys, a: Action, user: User)
    requires Inv(s) && Enabled(s, a) && (a.InitStart? || a.InitAcquire?)
    ensures var t := Next(s, a);
      user in t.table && user != GLOBAL ==> Holders(t, t.table[user].serial) != {} || t.leaked[t.table[user].serial] > 0
  {
    InvStep(s, a);
    var t := Next(s, a);
    if user in t.table && user != GLOBAL {
      assert t.table[user].usedBy > 0;
    }
  }

  // ---------- Every run ----------

  ghost predicate IsRun(s: Sys, actions: seq<Action>)
    decreases |actions|
  {
    actions == [] || (Enabled(s, actions[0]) && IsRun(Next(s, actions[0]), actions[1..]))
  }

  function After(s: Sys, actions: seq<Action>): Sys
    requires IsRun(s, actions)
    decreases |actions|
  {
    if actions == [] then s else After(Next(s, actions[0]), actions[1..])
  }

  lemma {:induction false} Safety(s: Sys, actions: seq<Action>)
    requires Inv(s) && IsRun(s, actions)
    ensures Inv(After(s, actions))
    decreases |actions|
  {
    if actions != [] {
      InvStep(s, actions[0]);
      hide Inv, Next, Enabled;
      Safety(Next(s, actions[0]), actions[1..]);
    }
  }

  /** Over every sequence of Init and Drop, however the steps of several drivers interleave: the counter of a
      registered limiter is the number of its holders plus its leaks, all drivers that hold a limiter for a user
      hold the one in the registry, and the global limiter stays registered once it was. */
  lemma RegistryIsSound(actions: seq<Action>, user: User, d: nat)
    requires IsRun(INITIAL, actions)
    ensures var s := After(INITIAL, actions);
      && (user in s.table ==>
        s.table[user].usedBy == |Holders(s, s.table[user].serial)| + s.leaked[s.table[user].serial])
      && (d in s.drivers && s.drivers[d].Holding? ==>
            s.drivers[d].user in s.table && s.table[s.drivers[d].user].serial == s.drivers[d].serial)
      && (s.created > 0 ==> GLOBAL in s.table)
  {
    assert Holders(INITIAL, 0) == {};
    assert Inv(INITIAL);
    Safety(INITIAL, actions);
  }

  /** No step is an Init of a driver that still holds a limiter. */
  ghost predicate NoReinit(s: Sys, actions: seq<Action>)
    requires IsRun(s, actions)
    decreases |actions|
  {
    actions == []
    || ((actions[0].InitStart? ==> !DriverOf(s, actions[0].d).Holding?) && NoReinit(Next(s, actions[0]), actions[1..]))
  }

  lemma LeakStep(s: Sys, a: Action)
    requires Enabled(s, a)
    ensures |Next(s, a).leaked| == |s.leaked| + if a.InitStart? && DriverOf(s, a.d).Holding? then 1 else 0
  {
  }

  /** Limiters leak in exactly the runs in which a driver is initialized again without having been dropped. */
  lemma {:induction false} LeaksAreReinits(s: Sys, actions: seq<Action>)
    requires IsRun(s, actions)
    ensures |After(s, actions).leaked| >= |s.leaked|
    ensures |After(s, actions).leaked| == |s.leaked| <==> NoReinit(s, actions)
    decreases |actions|
  {
    if actions != [] {
      LeakStep(s, actions[0]);
      hide Next, Enabled;
      LeaksAreReinits(Next(s, actions[0]), actions[1..]);
    }
  }

  // ---------- When the counters are exact ----------

  ghost predicate IsRegistered(t: Table, serial: nat) {
    exists u :: u in t && t[u].serial == serial
  }

  /** Every leaked limiter is still registered. */
  ghost predicate LeaksRegistered(s: Sys) {
    forall n :: n in s.leaked ==> IsRegistered(s.table, n)
  }

  lemma TakenLeaks(s: Sys, d: nat, user: User, global: bool)
    requires LeaksRegistered(s)
    ensures LeaksRegistered(TakenBy(s, d, user, global))
  {
    var t := TakenBy(s, d, user, global);
    forall n | n in t.leaked ensures IsRegistered(t.table, n) {
      var u :| u in s.table && s.table[u].serial == n;
      assert u in t.table && t.table[u].serial == n;
    }
  }

  /** The clean-up spares leaked limiters, because their counters never fall to zero. */
  lemma CleanedLeaks(s: Sys)
    requires Counted(s) && LeaksRegistered(s)
    ensures LeaksRegistered(s.(table := Cleaned(s.table)))
  {
    forall n | n in s.leaked ensures IsRegistered(Cleaned(s.table), n) {
      var u :| u in s.table && s.table[u].serial == n;
      assert s.table[u].usedBy > 0;
      assert u in Cleaned(s.table) && Cleaned(s.table)[u].serial == n;
    }
  }

  lemma TakeLeaks(s: Sys, d: nat, user: User, global: bool)
    requires Inv(s) && LeaksRegistered(s) && HoldsNothing(s, d)
    ensures LeaksRegistered(Take(s, d, user, global))
  {
    TakenCounted(s, d, user, global);
    TakenLeaks(s, d, user, global);
    hide Counted, LeaksRegistered, Cleaned, Taken;
    CleanedLeaks(TakenBy(s, d, user, global));
  }

  lemma ReturnLeaks(s: Sys, d: nat, v: Driver)
    requires LeaksRegistered(s)
    ensures LeaksRegistered(Return(s, d, v))
  {
    var t := Return(s, d, v);
    forall n | n in t.leaked ensures IsRegistered(t.table, n) {
      var u :| u in s.table && s.table[u].serial == n;
      assert u in t.table && t.table[u].serial == n;
    }
  }

  lemma LeakedLeaks(s: Sys, d: nat)
    requires Inv(s) && LeaksRegistered(s) && DriverOf(s, d).Holding?
    ensures LeaksRegistered(Leaked(s, d))
  {
    var h := s.drivers[d];
    assert h.user in s.table && s.table[h.user].serial == h.serial;
    assert IsRegistered(s.table, h.serial);
  }

  lemma LeaksStep(s: Sys, a: Action)
    requires Inv(s) && LeaksRegistered(s) && Enabled(s, a)
    ensures LeaksRegistered(Next(s, a))
  {
    hide LeaksRegistered, Take, Return, Acquired;
    match a
    case InitStart(d) =>
      if DriverOf(s, d).Holding? {
        LeakedLeaks(s, d);
        LeakKeeps(s, d);
        TakeLeaks(Leaked(s, d), d, GLOBAL, true);
      } else {
        TakeLeaks(s, d, GLOBAL, true);
      }
    case InitFail(d) => ReturnLeaks(s, d, NoLimiter);
    case InitFree(d) => ReturnLeaks(s, d, Between);
    case InitAcquire(d, user) => TakeLeaks(s, d, user, false);
    case Drop(d) => ReturnLeaks(s, d, NoLimiter);
  }

  lemma {:induction false} LeaksStayRegistered(s: Sys, actions: seq<Action>)
    requires Inv(s) && LeaksRegistered(s) && IsRun(s, actions)
    ensures LeaksRegistered(After(s, actions))
    decreases |actions|
  {
    if actions != [] {
      LeaksStep(s, actions[0]);
      InvStep(s, actions[0]);
      hide Inv, Next, Enabled, LeaksRegistered;
      LeaksStayRegistered(Next(s, actions[0]), actions[1..]);
    }
  }

  /** The counter of every registered limiter is the number of its holders. */
  ghost predicate Exact(s: Sys) {
    forall u :: u in s.table ==> s.table[u].usedBy == |Holders(s, s.table[u].serial)|
  }

  lemma ExactIffNoLeaks(s: Sys)
    requires Counted(s) && LeaksRegistered(s)
    ensures Exact(s) <==> s.leaked == multiset{}
  {
    if s.leaked != multiset{} {
      var n :| n in s.leaked;
      var u :| u in s.table && s.table[u].serial == n;
      assert s.table[u].usedBy > |Holders(s, n)|;
    }
  }

  /** The counters equal the numbers of holders after a run if and only if no driver was initialized in it while it
      still held a limiter. Once such an Init has happened, some counter is wrong for good. */
  lemma CountersAreExact(actions: seq<Action>)
    requires IsRun(INITIAL, actions)
    ensures Exact(After(INITIAL, actions)) <==> NoReinit(INITIAL, actions)
  {
    assert Holders(INITIAL, 0) == {};
    assert Inv(INITIAL) && LeaksRegistered(INITIAL);
    Safety(INITIAL, actions);
    LeaksStayRegistered(INITIAL, actions);
    LeaksAreReinits(INITIAL, actions);
    ExactIffNoLeaks(After(INITIAL, actions));
    assert |After(INITIAL, actions).leaked| == 0 <==> After(INITIAL, actions).leaked == multiset{};
  }

  ghost predicate IsOrphan(s: Sys, user: User) {
    user in s.table && Holders(s, s.table[user].serial) == {} && s.table[user].usedBy > 0
  }

  /** One driver initialized twice and then failing: nobody holds the limiter of its user, which is counted as used
      and stays registered for good. */
  lemma ReinitLeaks()
    ensures exists actions :: IsRun(INITIAL, actions) && IsOrphan(After(INITIAL, actions), "u")
  {
    var a1, a2, a3, a4, a5 := InitStart(0), InitFree(0), InitAcquire(0, "u"), InitStart(0), InitFail(0);
    var s3 := HoldsForU(a1, a2, a3);
    var s5 := ForgetsU(s3, a4, a5);
    hide Next, Enabled, IsOrphan;
    RunCons(Next(s3, a4), a5, []);
    RunCons(s3, a4, [a5]);
    RunCons(Next(Next(INITIAL, a1), a2), a3, [a4] + [a5]);
    RunCons(Next(INITIAL, a1), a2, [a3] + ([a4] + [a5]));
    RunCons(INITIAL, a1, [a2] + ([a3] + ([a4] + [a5])));
    assert IsOrphan(After(INITIAL, [a1] + ([a2] + ([a3] + ([a4] + [a5])))), "u");
  }

  /** A first Init, which takes the limiter of the user. */
  lemma HoldsForU(a1: Action, a2: Action, a3: Action) returns (s: Sys)
    requires a1 == InitStart(0) && a2 == InitFree(0) && a3 == InitAcquire(0, "u")
    ensures Enabled(INITIAL, a1) && Enabled(Next(INITIAL, a1), a2) && Enabled(Next(Next(INITIAL, a1), a2), a3)
    ensures s == Next(Next(Next(INITIAL, a1), a2), a3)
    ensures "u" in s.table && s.table["u"] == Entry(1, 1) && s.drivers == map[0 := Holding(1, "u")]
    ensures GLOBAL in s.table && s.table[GLOBAL].serial == 0
  {
    var s1 := Next(INITIAL, a1);
    var s2 := Next(s1, a2);
    s := Next(s2, a3);
  }

  /** A second one without Drop, which fails. */
  lemma ForgetsU(s: Sys, a4: Action, a5: Action) returns (t: Sys)
    requires a4 == InitStart(0) && a5 == InitFail(0)
    requires "u" in s.table && s.table["u"] == Entry(1, 1) && s.drivers == map[0 := Holding(1, "u")]
    requires GLOBAL in s.table && s.table[GLOBAL].serial == 0
    ensures Enabled(s, a4) && Enabled(Next(s, a4), a5) && t == Next(Next(s, a4), a5) && IsOrphan(t, "u")
  {
    var s4 := Next(s, a4);
    assert "u" in s4.table && s4.table["u"] == Entry(1, 1);
    t := Next(s4, a5);
    assert t.drivers == map[0 := NoLimiter];
    assert Holders(t, 1) == {};
  }

  lemma RunCons(s: Sys, a: Action, actions: seq<Action>)
    requires Enabled(s, a) && IsRun(Next(s, a), actions)
    ensures IsRun(s, [a] + actions) && After(s, [a] + actions) == After(Next(s, a), actions)
  {
    assert ([a] + actions)[1..] == actions;
  }
}
