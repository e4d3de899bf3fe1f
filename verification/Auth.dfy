/** Accounts and sessions: what a token is worth over its whole life.

    The password comparison, the lower-casing of emails and the hash applied to tokens are unspecified
    functions; distinct tokens have distinct hashes. Times are in nanoseconds; the sessions table keeps expiry
    in whole seconds. */
module Auth {
  import opened Basics
  import opened Wrappers
  import Search

  datatype Error = InvalidInput | WeakPassword | BadCredentials | NoSession | EmailTaken | Internal

  datatype User = User(id: string, email: string)

  datatype Account = Account(email: string, passwordHash: string)

  datatype Session = Session(userId: string, expires: int)

  datatype Config = Config(check: (string, string) -> bool, lower: string -> string, hash: string -> string, ttl: int)

  /** Accounts by id, with the unique index on email. */
  datatype Users = Users(byId: map<string, Account>, byEmail: map<string, string>)

  /** Each call with the time it reads and whether its statements reach the database. A registration also
      names the salted hash computed for its password, or None where hashing fails. */
  datatype Event =
    | Register(id: string, email: string, password: string, passwordHash: Option<string>, now: int, up: bool)
    | Login(email: string, password: string, token: string, now: int, up: bool, upWrite: bool)
    | Logout(token: string, now: int, up: bool)
    | Authenticate(token: string, now: int, up: bool, upDelete: bool, upUser: bool)
    | PurgeExpired(now: int, up: bool)

  datatype Answer = Person(r: Result<User, Error>) | Done(d: Result<(), Error>)

  /** How an email is stored and looked up. */
  function Normal(cfg: Config, email: string): string {
    cfg.lower(Search.Trim(email))
  }

  /** The length of a character's UTF-8 encoding. */
  function Width(c: char): nat {
    if c as int < 0x80 then 1 else if c as int < 0x800 then 2 else if c as int < 0x1_0000 then 3 else 4
  }

  function Bytes(s: string): nat {
    if s == "" then 0 else Width(s[0]) + Bytes(s[1..])
  }

  /** The bytes of a text are those of its parts, and of a character as many as UTF-8 needs. */
  lemma {:induction false} BytesOfParts(a: string, b: string, c: char)
    ensures Bytes(a + b) == Bytes(a) + Bytes(b)
    ensures Bytes([c]) == if c < '\U{80}' then 1 else if c < '\U{800}' then 2 else if c < '\U{10000}' then 3 else 4
  {
    if a == "" {
      assert a + b == b;
    } else {
      BytesOfParts(a[1..], b, c);
      assert (a + b)[1..] == a[1..] + b;
    }
    assert [c][1..] == "";
  }

  /** At least 8 characters, and at most the 72 bytes that the hash takes. */
  predicate Strong(password: string) {
    |password| >= 8 && Bytes(password) <= 72
  }

  function Registered(cfg: Config, u: Users, e: Event): (Users, Answer)
    requires e.Register?
  {
    var email := Normal(cfg, e.email);
    if email == "" || '@' !in email then (u, Person(Err(InvalidInput)))
    else if !Strong(e.password) then (u, Person(Err(WeakPassword)))
    else if e.passwordHash.None? || !e.up then (u, Person(Err(Internal)))
    else if email in u.byEmail || e.id in u.byId then (u, Person(Err(EmailTaken)))
    else (Users(u.byId[e.id := Account(email, e.passwordHash.value)], u.byEmail[email := e.id]),
          Person(Ok(User(e.id, email))))
  }

  /** The account a login opens a session for. */
  function Credentials(cfg: Config, u: Users, e: Event): Result<User, Error>
    requires e.Login?
  {
    var email := Normal(cfg, e.email);
    if !e.up then Err(Internal)
    else if email !in u.byEmail || u.byEmail[email] !in u.byId then Err(BadCredentials)
    else if !cfg.check(u.byId[u.byEmail[email]].passwordHash, e.password) then Err(BadCredentials)
    else if !e.upWrite then Err(Internal)
    else Ok(User(u.byEmail[email], email))
  }

  /** The answer once a session of this user is found to be alive; every error of the lookup counts as none. */
  function Resolved(u: Users, userId: string, up: bool): Result<User, Error> {
    if up && userId in u.byId then Ok(User(userId, u.byId[userId].email)) else Err(NoSession)
  }

  // ---------------------------------------------------------------------------------------------
  // The service as it stores things: hashed tokens, expiry in seconds, sweeps and lazy deletion
  // ---------------------------------------------------------------------------------------------

  datatype State = State(users: Users, sessions: map<string, Session>)

  /** The sessions a sweep removes. */
  function Expired(sessions: map<string, Session>, now: int): set<string> {
    set h | h in sessions && sessions[h].expires < Unix(now)
  }

  function Step(cfg: Config, s: State, e: Event): (State, Answer) {
    match e
    case Register(_, _, _, _, _, _) =>
      var (u, a) := Registered(cfg, s.users, e);
      (s.(users := u), a)
    case Login(_, _, token, now, _, _) =>
      var r := Credentials(cfg, s.users, e);
      if r.Err? then (s, Person(r))
      else if cfg.hash(token) in s.sessions then (s, Person(Err(Internal)))
      else (s.(sessions := s.sessions[cfg.hash(token) := Session(r.value.id, Unix(now + cfg.ttl))]), Person(r))
    case Logout(token, _, up) =>
      if up then (s.(sessions := s.sessions - {cfg.hash(token)}), Done(Ok(()))) else (s, Done(Err(Internal)))
    case Authenticate(token, now, up, upDelete, upUser) =>
      var h := cfg.hash(token);
      if token == "" then (s, Person(Err(NoSession)))
      else if !up then (s, Person(Err(Internal)))
      else if h !in s.sessions then (s, Person(Err(NoSession)))
      else if now > s.sessions[h].expires * SECOND then
        (if upDelete then s.(sessions := s.sessions - {h}) else s, Person(Err(NoSession)))
      else (s, Person(Resolved(s.users, s.sessions[h].userId, upUser)))
    case PurgeExpired(now, up) =>
      if up then (s.(sessions := s.sessions - Expired(s.sessions, now)), Done(Ok(()))) else (s, Done(Err(Internal)))
  }

  class Service {
    const cfg: Config
    var users: map<string, Account>
    var emails: map<string, string>
    var sessions: map<string, Session>

    constructor (cfg: Config)
      ensures this.cfg == cfg && View() == State(Users(map[], map[]), map[])
    {
      this.cfg := cfg;
      users, emails, sessions := map[], map[], map[];
    }

    ghost function View(): State
      reads this
    {
      State(Users(users, emails), sessions)
    }

    method Register(id: string, email: string, password: string, passwordHash: Option<string>, now: int, up: bool)
      returns (r: Result<User, Error>)
      modifies this
      ensures (View(), Person(r))
           == Step(cfg, old(View()), Event.Register(id, email, password, passwordHash, now, up))
      ensures var m := cfg.lower(Search.Trim(email));
              && (r.Ok? <==> m != "" && '@' in m && |password| >= 8 && Bytes(password) <= 72 && passwordHash.Some?
                             && up && m !in old(emails) && id !in old(users))
              && (r.Ok? ==> users == old(users)[id := Account(m, passwordHash.value)]
                            && emails == old(emails)[m := id])
              && (r.Err? ==> users == old(users) && emails == old(emails))
              && sessions == old(sessions)
    {
      var normal := cfg.lower(Search.Trim(email));
      if normal == "" || '@' !in normal {
        return Err(InvalidInput);
      }
      if |password| < 8 || Bytes(password) > 72 {
        return Err(WeakPassword);
      }
      if passwordHash.None? || !up {
        return Err(Internal);
      }
      if normal in emails || id in users {
        return Err(EmailTaken);
      }
      users := users[id := Account(normal, passwordHash.value)];
      emails := emails[normal := id];
      return Ok(User(id, normal));
    }

    method Login(email: string, password: string, token: string, now: int, up: bool, upWrite: bool)
      returns (r: Result<User, Error>)
      modifies this
      ensures (View(), Person(r)) == Step(cfg, old(View()), Event.Login(email, password, token, now, up, upWrite))
      ensures var m, h := cfg.lower(Search.Trim(email)), cfg.hash(token);
              && (r.Ok? <==> up && upWrite && m in old(emails) && old(emails)[m] in old(users) && h !in old(sessions)
                             && cfg.check(old(users)[old(emails)[m]].passwordHash, password))
              && (r.Ok? ==> r.value == User(old(emails)[m], m) && sessions
                            == old(sessions)[h := Session(old(emails)[m], (now + cfg.ttl) / 1_000_000_000)])
              && (r.Err? ==> sessions == old(sessions))
              && users == old(users) && emails == old(emails)
    {
      var normal := cfg.lower(Search.Trim(email));
      if !up {
        return Err(Internal);
      }
      if normal !in emails || emails[normal] !in users {
        return Err(BadCredentials);
      }
      var id := emails[normal];
      if !cfg.check(users[id].passwordHash, password) {
        return Err(BadCredentials);
      }
      var expires := now + cfg.ttl;
      if !upWrite || cfg.hash(token) in sessions {
        return Err(Internal);
      }
      sessions := sessions[cfg.hash(token) := Session(id, expires / SECOND)];
      return Ok(User(id, normal));
    }

    method Logout(token: string, now: int, up: bool) returns (r: Result<(), Error>)
      modifies this
      ensures (View(), Done(r)) == Step(cfg, old(View()), Event.Logout(token, now, up))
      ensures r == if up then Ok(()) else Err(Internal)
      ensures sessions == if up then old(sessions) - {cfg.hash(token)} else old(sessions)
      ensures users == old(users) && emails == old(emails)
    {
      if !up {
        return Err(Internal);
      }
      sessions := sessions - {cfg.hash(token)};
      return Ok(());
    }

    method Authenticate(token: string, now: int, up: bool, upDelete: bool, upUser: bool)
      returns (r: Result<User, Error>)
      modifies this
      ensures (View(), Person(r)) == Step(cfg, old(View()), Event.Authenticate(token, now, up, upDelete, upUser))
      ensures var h, was := cfg.hash(token), old(sessions);
              && (r.Ok? <==> token != "" && up && upUser && h in was && now <= was[h].expires * 1_000_000_000
                             && was[h].userId in users)
              && (r.Ok? ==> r.value == User(was[h].userId, users[was[h].userId].email))
              && sessions == if token != "" && up && upDelete && h in was && now > was[h].expires * 1_000_000_000
                             then was - {h} else was
      ensures users == old(users) && emails == old(emails)
    {
      if token == "" {
        return Err(NoSession);
      }
      if !up {
        return Err(Internal);
      }
      var h := cfg.hash(token);
      if h !in sessions {
        return Err(NoSession);
      }
      var found := sessions[h];
      if now > found.expires * SECOND {
        if upDelete {
          sessions := sessions - {h};
        }
        return Err(NoSession);
      }
      if !upUser || found.userId !in users {
        return Err(NoSession);
      }
      return Ok(User(found.userId, users[found.userId].email));
    }

    /** Also returns how many sessions were removed. */
    method PurgeExpired(now: int, up: bool) returns (r: Result<(), Error>, count: nat)
      modifies this
      ensures (View(), Done(r)) == Step(cfg, old(View()), Event.PurgeExpired(now, up))
      ensures r == if up then Ok(()) else Err(Internal)
      ensures count == |old(sessions)| - |sessions|
      ensures forall h :: h in sessions <==>
                h in old(sessions) && (up ==> old(sessions)[h].expires >= now / 1_000_000_000)
      ensures forall h | h in sessions :: sessions[h] == old(sessions)[h]
      ensures users == old(users) && emails == old(emails)
    {
      if !up {
        return Err(Internal), 0;
      }
      var gone := set h | h in sessions && sessions[h].expires < now / SECOND;
      RemovedCount(sessions, gone);
      sessions := sessions - gone;
      return Ok(()), |gone|;
    }

    static lemma RemovedCount(m: map<string, Session>, gone: set<string>)
      requires gone <= m.Keys
      ensures |m - gone| == |m| - |gone|
    {
      assert (m - gone).Keys == m.Keys - gone;
      assert |(m - gone).Keys| == |m - gone| && |m.Keys| == |m|;
    }
  }

  // ---------------------------------------------------------------------------------------------
  // What a token is worth: issued at a time, not logged out since, not too old
  // ---------------------------------------------------------------------------------------------

  datatype Grant = Grant(userId: string, issued: int)

  /** Nothing here ever expires or is swept; a grant ends only by logout. */
  datatype Ideal = Ideal(users: Users, grants: map<string, Grant>)

  /** A grant is good up to its issue time plus the lifetime, rounded down to the second. */
  function GoodUntil(g: Grant, ttl: int): int {
    Unix(g.issued + ttl) * SECOND
  }

  function IdealStep(cfg: Config, s: Ideal, e: Event): (Ideal, Answer) {
    match e
    case Register(_, _, _, _, _, _) =>
      var (u, a) := Registered(cfg, s.users, e);
      (s.(users := u), a)
    case Login(_, _, token, now, _, _) =>
      var r := Credentials(cfg, s.users, e);
      (if r.Ok? then s.(grants := s.grants[token := Grant(r.value.id, now)]) else s, Person(r))
    case Logout(token, _, up) =>
      if up then (s.(grants := s.grants - {token}), Done(Ok(()))) else (s, Done(Err(Internal)))
    case Authenticate(token, now, up, _, upUser) =>
      (s, Person(
         if token == "" then Err(NoSession)
         else if !up then Err(Internal)
         else if token in s.grants && now <= GoodUntil(s.grants[token], cfg.ttl)
         then Resolved(s.users, s.grants[token].userId, upUser)
         else Err(NoSession)))
    case PurgeExpired(_, up) => (s, Done(if up then Ok(()) else Err(Internal)))
  }

  /** Real lifetime: no longer than the configured one, and shorter by less than a second. */
  lemma LifetimeExact(g: Grant, ttl: int)
    ensures ttl - 1_000_000_000 < GoodUntil(g, ttl) - g.issued <= ttl
  {
  }

  ghost predicate Injective(hash: string -> string) {
    forall a: string, b: string :: hash(a) == hash(b) ==> a == b
  }

  /** A stored session is its grant's. */
  ghost predicate StoredRight(cfg: Config, s: State, i: Ideal) {
    forall t | t in i.grants && cfg.hash(t) in s.sessions ::
      s.sessions[cfg.hash(t)] == Session(i.grants[t].userId, Unix(i.grants[t].issued + cfg.ttl))
  }

  /** A grant without a session is past its time. */
  ghost predicate MissingExpired(cfg: Config, s: State, i: Ideal, now: int) {
    forall t | t in i.grants && cfg.hash(t) !in s.sessions :: now > GoodUntil(i.grants[t], cfg.ttl)
  }

  /** A stored session is that of a grant. */
  ghost predicate Backed(cfg: Config, s: State, i: Ideal) {
    forall t | cfg.hash(t) in s.sessions :: t in i.grants
  }

  ghost predicate Stands(cfg: Config, s: State, i: Ideal, now: int) {
    s.users == i.users && StoredRight(cfg, s, i) && MissingExpired(cfg, s, i, now) && Backed(cfg, s, i)
  }

  lemma LoginAnswers(cfg: Config, s: State, i: Ideal, e: Event)
    requires s.users == i.users && Backed(cfg, s, i) && e.Login? && e.token !in i.grants
    ensures Step(cfg, s, e).1 == IdealStep(cfg, i, e).1
    ensures var (s', a) := Step(cfg, s, e);
            var i' := IdealStep(cfg, i, e).0;
            if a.r.Ok?
            then s' == s.(sessions := s.sessions[cfg.hash(e.token) := Session(a.r.value.id, Unix(e.now + cfg.ttl))])
                 && i' == i.(grants := i.grants[e.token := Grant(a.r.value.id, e.now)])
            else s' == s && i' == i
  {
    assert cfg.hash(e.token) !in s.sessions;
  }

  lemma IssueStands(cfg: Config, s: State, i: Ideal, now: int, token: string, userId: string)
    requires Injective(cfg.hash) && Stands(cfg, s, i, now) && token !in i.grants
    ensures Stands(cfg, s.(sessions := s.sessions[cfg.hash(token) := Session(userId, Unix(now + cfg.ttl))]),
                   i.(grants := i.grants[token := Grant(userId, now)]), now)
  {
  }

  lemma Later(cfg: Config, s: State, i: Ideal, now: int, later: int)
    requires Stands(cfg, s, i, now) && now <= later
    ensures Stands(cfg, s, i, later)
  {
  }

  lemma LoginStands(cfg: Config, s: State, i: Ideal, e: Event)
    requires Injective(cfg.hash) && Stands(cfg, s, i, e.now) && e.Login? && e.token !in i.grants
    ensures Stands(cfg, Step(cfg, s, e).0, IdealStep(cfg, i, e).0, e.now)
    ensures Step(cfg, s, e).1 == IdealStep(cfg, i, e).1
  {
    LoginAnswers(cfg, s, i, e);
    var r := Step(cfg, s, e).1.r;
    if r.Ok? {
      IssueStands(cfg, s, i, e.now, e.token, r.value.id);
    }
  }

  lemma LogoutStands(cfg: Config, s: State, i: Ideal, e: Event)
    requires Injective(cfg.hash) && Stands(cfg, s, i, e.now) && e.Logout?
    ensures Stands(cfg, Step(cfg, s, e).0, IdealStep(cfg, i, e).0, e.now)
    ensures Step(cfg, s, e).1 == IdealStep(cfg, i, e).1
  {
  }

  lemma AuthenticateStands(cfg: Config, s: State, i: Ideal, e: Event)
    requires Injective(cfg.hash) && Stands(cfg, s, i, e.now) && e.Authenticate?
    ensures Stands(cfg, Step(cfg, s, e).0, IdealStep(cfg, i, e).0, e.now)
    ensures Step(cfg, s, e).1 == IdealStep(cfg, i, e).1
  {
    if cfg.hash(e.token) in s.sessions {
      assert e.token in i.grants;
    }
  }

  /** A sweep only removes sessions past their time. */
  lemma PurgeStands(cfg: Config, s: State, i: Ideal, e: Event)
    requires Stands(cfg, s, i, e.now) && e.PurgeExpired?
    ensures Stands(cfg, Step(cfg, s, e).0, IdealStep(cfg, i, e).0, e.now)
    ensures Step(cfg, s, e).1 == IdealStep(cfg, i, e).1
  {
    forall x: int | x < Unix(e.now)
      ensures e.now > x * SECOND
    {
    }
  }

  function Run(cfg: Config, s: State, es: seq<Event>): State {
    if es == [] then s else Step(cfg, Run(cfg, s, es[..|es| - 1]), es[|es| - 1]).0
  }

  function IdealRun(cfg: Config, s: Ideal, es: seq<Event>): Ideal {
    if es == [] then s else IdealStep(cfg, IdealRun(cfg, s, es[..|es| - 1]), es[|es| - 1]).0
  }

  const NOBODY := Users(map[], map[])

  /** Every login is given a token no login was given before. */
  predicate FreshTokens(es: seq<Event>) {
    forall i, j | 0 <= i < j < |es| && es[i].Login? && es[j].Login? :: es[i].token != es[j].token
  }

  predicate Ordered(es: seq<Event>) {
    forall i, j | 0 <= i < j < |es| :: es[i].now <= es[j].now
  }

  lemma {:induction false} GrantsFromLogins(cfg: Config, es: seq<Event>, t: string)
    requires t in IdealRun(cfg, Ideal(NOBODY, map[]), es).grants
    ensures exists i | 0 <= i < |es| :: es[i].Login? && es[i].token == t
  {
    var n := |es| - 1;
    if es == [] {
    } else if t in IdealRun(cfg, Ideal(NOBODY, map[]), es[..n]).grants {
      GrantsFromLogins(cfg, es[..n], t);
      var i :| 0 <= i < n && es[..n][i].Login? && es[..n][i].token == t;
      assert es[i].Login? && es[i].token == t;
    } else {
      assert es[n].Login? && es[n].token == t;
    }
  }

  lemma {:induction false} RunStands(cfg: Config, es: seq<Event>, now: int)
    requires Injective(cfg.hash) && FreshTokens(es) && Ordered(es)
    requires forall i | 0 <= i < |es| :: es[i].now <= now
    ensures Stands(cfg, Run(cfg, State(NOBODY, map[]), es), IdealRun(cfg, Ideal(NOBODY, map[]), es), now)
  {
    if es == [] {
    } else {
      var n := |es| - 1;
      RunStands(cfg, es[..n], es[n].now);
      assert es[..n] + [es[n]] == es;
      StepStands(cfg, es[..n], es[n]);
      Later(cfg, Run(cfg, State(NOBODY, map[]), es), IdealRun(cfg, Ideal(NOBODY, map[]), es), es[n].now, now);
    }
  }

  lemma TokenReused(es: seq<Event>, e: Event, k: nat)
    requires k < |es| && es[k].Login? && e.Login? && es[k].token == e.token
    ensures !FreshTokens(es + [e])
  {
    var all := es + [e];
    assert all[k].Login? && all[|es|].Login? && all[k].token == all[|es|].token;
  }

  lemma StepStands(cfg: Config, es: seq<Event>, e: Event)
    requires Injective(cfg.hash) && FreshTokens(es + [e])
    requires Stands(cfg, Run(cfg, State(NOBODY, map[]), es), IdealRun(cfg, Ideal(NOBODY, map[]), es), e.now)
    ensures var s, i := Run(cfg, State(NOBODY, map[]), es), IdealRun(cfg, Ideal(NOBODY, map[]), es);
            Stands(cfg, Step(cfg, s, e).0, IdealStep(cfg, i, e).0, e.now)
            && Step(cfg, s, e).1 == IdealStep(cfg, i, e).1
  {
    var s, i := Run(cfg, State(NOBODY, map[]), es), IdealRun(cfg, Ideal(NOBODY, map[]), es);
    match e
    case Register(_, _, _, _, _, _) =>
    case Login(_, _, token, _, _, _) =>
      if token in i.grants {
        GrantsFromLogins(cfg, es, token);
        var k :| 0 <= k < |es| && es[k].Login? && es[k].token == token;
        TokenReused(es, e, k);
        assert false;
      }
      LoginStands(cfg, s, i, e);
    case Logout(_, _, _) => LogoutStands(cfg, s, i, e);
    case Authenticate(_, _, _, _, _) => AuthenticateStands(cfg, s, i, e);
    case PurgeExpired(_, _) => PurgeStands(cfg, s, i, e);
  }

  /** With a clock that does not run backwards and fresh tokens, every call of every run answers as if
      sessions were never swept: a token authenticates exactly while it is issued, not logged out and
      within its lifetime. */
  lemma SessionsRefine(cfg: Config, es: seq<Event>, k: nat)
    requires Injective(cfg.hash) && FreshTokens(es) && Ordered(es) && k < |es|
    ensures Step(cfg, Run(cfg, State(NOBODY, map[]), es[..k]), es[k]).1
         == IdealStep(cfg, IdealRun(cfg, Ideal(NOBODY, map[]), es[..k]), es[k]).1
  {
    RunStands(cfg, es[..k], es[k].now);
    assert FreshTokens(es[..k] + [es[k]]);
    StepStands(cfg, es[..k], es[k]);
  }

  // ---------------------------------------------------------------------------------------------
  // The same in terms of the run alone
  // ---------------------------------------------------------------------------------------------

  /** The service's answer to the k-th call. */
  function AnswerTo(cfg: Config, es: seq<Event>, k: nat): Answer
    requires k < |es|
  {
    Step(cfg, Run(cfg, State(NOBODY, map[]), es[..k]), es[k]).1
  }

  function Grants(cfg: Config, es: seq<Event>): map<string, Grant> {
    IdealRun(cfg, Ideal(NOBODY, map[]), es).grants
  }

  predicate LogsOut(e: Event, t: string) {
    e.Logout? && e.up && e.token == t
  }

  /** The i-th call, a successful login, issued t, and no call before the k-th ended it. */
  ghost predicate AliveFrom(cfg: Config, es: seq<Event>, i: nat, t: string, k: nat)
    requires i < k <= |es|
  {
    && es[i].Login? && es[i].token == t && AnswerTo(cfg, es, i).Person? && AnswerTo(cfg, es, i).r.Ok?
    && forall j | i < j < k :: !LogsOut(es[j], t)
  }

  /** At the k-th call token t is alive since the i-th, and not too old. */
  ghost predicate GoodSince(cfg: Config, es: seq<Event>, i: nat, t: string, k: nat) {
    i < k < |es| && AliveFrom(cfg, es, i, t, k) && es[k].now <= (es[i].now + cfg.ttl) / 1_000_000_000 * 1_000_000_000
  }

  ghost predicate Sane(cfg: Config, es: seq<Event>) {
    Injective(cfg.hash) && FreshTokens(es) && Ordered(es)
  }

  /** Accounts and the email index mirror each other, under normalised emails only. */
  ghost predicate OneAccountPerEmail(cfg: Config, u: Users) {
    && (forall id | id in u.byId :: u.byId[id].email in u.byEmail && u.byEmail[u.byId[id].email] == id)
    && (forall m | m in u.byEmail :: u.byEmail[m] in u.byId && u.byId[u.byEmail[m]].email == m && '@' in m)
    && (forall m | m in u.byEmail :: exists email :: m == Normal(cfg, email))
  }

  lemma RegisterKeepsAccounts(cfg: Config, u: Users, e: Event)
    requires OneAccountPerEmail(cfg, u) && e.Register?
    ensures OneAccountPerEmail(cfg, Registered(cfg, u, e).0)
  {
    var u' := Registered(cfg, u, e).0;
    forall m | m in u'.byEmail
      ensures exists email :: m == Normal(cfg, email)
    {
      if m !in u.byEmail { assert m == Normal(cfg, e.email); }
    }
  }

  /** Over every run, no email has two accounts, however it is spelled. */
  lemma {:induction false} AccountsUnique(cfg: Config, es: seq<Event>)
    ensures OneAccountPerEmail(cfg, Run(cfg, State(NOBODY, map[]), es).users)
  {
    if es == [] {
    } else {
      var n := |es| - 1;
      AccountsUnique(cfg, es[..n]);
      var s := Run(cfg, State(NOBODY, map[]), es[..n]);
      if es[n].Register? { RegisterKeepsAccounts(cfg, s.users, es[n]); }
    }
  }

  /** A granted user still has an account. */
  ghost predicate UsersStand(s: Ideal) {
    forall t | t in s.grants :: s.grants[t].userId in s.users.byId
  }

  lemma UsersStandStep(cfg: Config, s: Ideal, e: Event)
    requires UsersStand(s)
    ensures UsersStand(IdealStep(cfg, s, e).0)
  {
  }

  lemma {:induction false} GrantedExist(cfg: Config, es: seq<Event>)
    ensures UsersStand(IdealRun(cfg, Ideal(NOBODY, map[]), es))
  {
    if es == [] {
    } else {
      var n := |es| - 1;
      GrantedExist(cfg, es[..n]);
      UsersStandStep(cfg, IdealRun(cfg, Ideal(NOBODY, map[]), es[..n]), es[n]);
    }
  }

  /** What the i-th call, a login, grants, if it succeeds. */
  lemma LoginGrants(cfg: Config, es: seq<Event>, i: nat)
    requires Sane(cfg, es) && i < |es| && es[i].Login?
    ensures var ideal := IdealStep(cfg, IdealRun(cfg, Ideal(NOBODY, map[]), es[..i]), es[i]);
            && ideal.1 == AnswerTo(cfg, es, i)
            && (AnswerTo(cfg, es, i).r.Ok?
                ==> es[i].token in ideal.0.grants
                    && ideal.0.grants[es[i].token] == Grant(AnswerTo(cfg, es, i).r.value.id, es[i].now))
  {
    SessionsRefine(cfg, es, i);
  }

  lemma {:induction false} GrantWitness(cfg: Config, es: seq<Event>, t: string, k: nat) returns (i: nat)
    requires Sane(cfg, es) && k <= |es| && t in Grants(cfg, es[..k])
    ensures i < k && AliveFrom(cfg, es, i, t, k)
    ensures Grants(cfg, es[..k])[t] == Grant(AnswerTo(cfg, es, i).r.value.id, es[i].now)
  {
    var n := k - 1;
    assert es[..k][..n] == es[..n];
    if es[n].Login? { LoginGrants(cfg, es, n); }
    if es[n].Login? && es[n].token == t && AnswerTo(cfg, es, n).r.Ok? {
      i := n;
    } else {
      i := GrantWitness(cfg, es, t, n);
    }
  }

  lemma KeepsGrant(cfg: Config, s: Ideal, e: Event, t: string)
    requires t in s.grants && !LogsOut(e, t) && (e.Login? ==> e.token != t)
    ensures t in IdealStep(cfg, s, e).0.grants && IdealStep(cfg, s, e).0.grants[t] == s.grants[t]
  {
  }

  lemma {:induction false} AliveGranted(cfg: Config, es: seq<Event>, i: nat, t: string, k: nat)
    requires Sane(cfg, es) && i < k <= |es| && AliveFrom(cfg, es, i, t, k)
    ensures t in Grants(cfg, es[..k])
    ensures Grants(cfg, es[..k])[t] == Grant(AnswerTo(cfg, es, i).r.value.id, es[i].now)
    decreases k
  {
    var n := k - 1;
    assert es[..k][..n] == es[..n];
    if i == n {
      LoginGrants(cfg, es, n);
    } else {
      AliveGranted(cfg, es, i, t, n);
      assert !LogsOut(es[n], t);
      assert es[n].Login? ==> es[n].token != es[i].token;
      KeepsGrant(cfg, IdealRun(cfg, Ideal(NOBODY, map[]), es[..n]), es[n], t);
    }
  }

  lemma AccountsStay(cfg: Config, s: State, e: Event, id: string)
    requires id in s.users.byId
    ensures id in Step(cfg, s, e).0.users.byId && Step(cfg, s, e).0.users.byId[id] == s.users.byId[id]
  {
  }

  /** Accounts are never removed or changed. */
  lemma {:induction false} AccountsKept(cfg: Config, es: seq<Event>, i: nat, k: nat, id: string)
    requires i <= k <= |es| && id in Run(cfg, State(NOBODY, map[]), es[..i]).users.byId
    ensures var before, after := Run(cfg, State(NOBODY, map[]), es[..i]), Run(cfg, State(NOBODY, map[]), es[..k]);
            id in after.users.byId && after.users.byId[id] == before.users.byId[id]
    decreases k
  {
    if i == k {
    } else {
      AccountsKept(cfg, es, i, k - 1, id);
      assert es[..k][..k - 1] == es[..k - 1];
      AccountsStay(cfg, Run(cfg, State(NOBODY, map[]), es[..k - 1]), es[k - 1], id);
    }
  }

  /** A successful login names an account as it is stored. */
  lemma LoginNames(cfg: Config, es: seq<Event>, i: nat)
    requires i < |es| && es[i].Login? && AnswerTo(cfg, es, i).r.Ok?
    ensures var byId, u := Run(cfg, State(NOBODY, map[]), es[..i]).users.byId, AnswerTo(cfg, es, i).r.value;
            u.id in byId && u == User(u.id, byId[u.id].email)
  {
    AccountsUnique(cfg, es[..i]);
  }

  /** A token that is good still leads to its login's user, if that user can be looked up. */
  lemma GoodTokenAnswer(cfg: Config, es: seq<Event>, i: nat, k: nat)
    requires Sane(cfg, es) && k < |es| && es[k].Authenticate? && es[k].token != "" && es[k].up
    requires GoodSince(cfg, es, i, es[k].token, k)
    ensures AnswerTo(cfg, es, k) == if es[k].upUser then AnswerTo(cfg, es, i) else Person(Err(NoSession))
  {
    hide Step, IdealStep, Sane;
    var id := AnswerTo(cfg, es, i).r.value.id;
    AliveGranted(cfg, es, i, es[k].token, k);
    GrantedAnswer(cfg, es, k);
    LoginNames(cfg, es, i);
    AccountsKept(cfg, es, i, k, id);
  }

  /** The answer for a token that stands granted. */
  lemma GrantedAnswer(cfg: Config, es: seq<Event>, k: nat)
    requires Sane(cfg, es) && k < |es| && es[k].Authenticate? && es[k].token != "" && es[k].up
    requires es[k].token in Grants(cfg, es[..k])
    requires es[k].now <= GoodUntil(Grants(cfg, es[..k])[es[k].token], cfg.ttl)
    ensures AnswerTo(cfg, es, k)
         == Person(Resolved(Run(cfg, State(NOBODY, map[]), es[..k]).users,
                            Grants(cfg, es[..k])[es[k].token].userId, es[k].upUser))
  {
    hide Step;
    SessionsRefine(cfg, es, k);
    RunStands(cfg, es[..k], es[k].now);
  }

  /** What every answer to an Authenticate looks like. */
  lemma AnswerShape(cfg: Config, es: seq<Event>, k: nat)
    requires Sane(cfg, es) && k < |es| && es[k].Authenticate?
    ensures AnswerTo(cfg, es, k).Person?
    ensures AnswerTo(cfg, es, k).r.Ok?
            ==> es[k].token != "" && es[k].up && es[k].upUser && es[k].token in Grants(cfg, es[..k])
                && es[k].now <= GoodUntil(Grants(cfg, es[..k])[es[k].token], cfg.ttl)
    ensures AnswerTo(cfg, es, k).r.Err?
            ==> AnswerTo(cfg, es, k).r.error == if es[k].token != "" && !es[k].up then Internal else NoSession
  {
    hide Step;
    SessionsRefine(cfg, es, k);
  }

  /** The answer to every Authenticate, for every token and every failure. It names a user exactly when the
      token was issued by an earlier successful login, not logged out since, is at most the lifetime old,
      rounded down to the second, and both lookups work; the user is then the one that login named. A failing
      user lookup is told as a missing session. */
  lemma AuthenticatesExactly(cfg: Config, es: seq<Event>, k: nat)
    requires Sane(cfg, es) && k < |es| && es[k].Authenticate?
    ensures AnswerTo(cfg, es, k).Person?
    ensures AnswerTo(cfg, es, k).r.Ok?
            <==> es[k].token != "" && es[k].up && es[k].upUser
                 && exists i: nat :: GoodSince(cfg, es, i, es[k].token, k)
    ensures forall i: nat | GoodSince(cfg, es, i, es[k].token, k) && AnswerTo(cfg, es, k).r.Ok? ::
              AnswerTo(cfg, es, k) == AnswerTo(cfg, es, i)
    ensures AnswerTo(cfg, es, k).r.Err?
            ==> AnswerTo(cfg, es, k).r.error == if es[k].token != "" && !es[k].up then Internal else NoSession
  {
    hide Step, IdealStep, Sane;
    var t := es[k].token;
    AnswerShape(cfg, es, k);
    if AnswerTo(cfg, es, k).r.Ok? {
      var i := GrantWitness(cfg, es, t, k);
      assert GoodSince(cfg, es, i, t, k);
    }
    if t != "" && es[k].up {
      forall i: nat | GoodSince(cfg, es, i, t, k)
        ensures AnswerTo(cfg, es, k) == if es[k].upUser then AnswerTo(cfg, es, i) else Person(Err(NoSession))
      {
        GoodTokenAnswer(cfg, es, i, k);
      }
    }
  }

  /** A failing user lookup hides a live session: a run in which the same token, still good, is told as
      missing. */
  lemma FailedLookupHidesSession(cfg: Config, id: string, email: string, password: string, hash: string,
                                 token: string, now: int)
    returns (es: seq<Event>)
    requires Injective(cfg.hash) && Normal(cfg, email) != "" && '@' in Normal(cfg, email) && Strong(password)
    requires cfg.check(hash, password) && token != "" && cfg.ttl >= SECOND
    ensures |es| == 3 && Sane(cfg, es) && es[2] == Authenticate(token, now, true, true, false)
    ensures GoodSince(cfg, es, 1, token, 2) && AnswerTo(cfg, es, 1) == Person(Ok(User(id, Normal(cfg, email))))
    ensures AnswerTo(cfg, es, 2) == Person(Err(NoSession))
  {
    es := [Register(id, email, password, Some(hash), now, true), Login(email, password, token, now, true, true),
           Authenticate(token, now, true, true, false)];
    assert es[..0] == [] && es[..1] == [es[0]] && es[..2] == [es[0], es[1]];
    assert es[..1][..0] == [] && es[..2][..1] == es[..1];
    var mail := Normal(cfg, email);
    assert Run(cfg, State(NOBODY, map[]), es[..1])
        == State(Users(map[id := Account(mail, hash)], map[mail := id]), map[]);
    assert GoodSince(cfg, es, 1, token, 2);
    GoodTokenAnswer(cfg, es, 1, 2);
  }
}
