/** What registering and logging in answer, told by the calls of a run and their answers alone. */
module Accounts {
  import opened Wrappers
  import Search
  import opened Auth

  /** The j-th call, a registration, opened an account before the k-th call. */
  ghost predicate Opened(cfg: Config, es: seq<Event>, j: int, k: nat) {
    0 <= j < k <= |es| && es[j].Register? && AnswerTo(cfg, es, j).Person? && AnswerTo(cfg, es, j).r.Ok?
  }

  /** The email of a registration or a login, trimmed and in lower case. */
  function Mail(cfg: Config, e: Event): string
    requires e.Register? || e.Login?
  {
    cfg.lower(Search.Trim(e.email))
  }

  /** The account opened by the j-th call is the one a login names: same normalised email, fitting password. */
  ghost predicate Admits(cfg: Config, es: seq<Event>, j: int, k: nat)
    requires k < |es| && es[k].Login?
  {
    && Opened(cfg, es, j, k) && Mail(cfg, es[j]) == Mail(cfg, es[k])
    && es[j].passwordHash.Some? && cfg.check(es[j].passwordHash.value, es[k].password)
  }

  function UsersAt(cfg: Config, es: seq<Event>, k: nat): Users
    requires k <= |es|
  {
    Run(cfg, State(NOBODY, map[]), es[..k]).users
  }

  /** Whatever is stored was opened by a call. */
  ghost predicate EntriesOpened(cfg: Config, es: seq<Event>, k: nat)
    requires k <= |es|
  {
    && (forall m | m in UsersAt(cfg, es, k).byEmail :: exists j :: Opened(cfg, es, j, k) && Mail(cfg, es[j]) == m)
    && (forall id | id in UsersAt(cfg, es, k).byId :: exists j :: Opened(cfg, es, j, k) && es[j].id == id)
  }

  /** The account a registration describes, as it is stored. */
  predicate Holds(cfg: Config, u: Users, e: Event)
    requires e.Register?
  {
    && e.passwordHash.Some? && Mail(cfg, e) in u.byEmail && u.byEmail[Mail(cfg, e)] == e.id
    && e.id in u.byId && u.byId[e.id] == Account(Mail(cfg, e), e.passwordHash.value)
  }

  /** Whatever was opened is stored, as it was opened. */
  ghost predicate OpenedStored(cfg: Config, es: seq<Event>, k: nat)
    requires k <= |es|
  {
    forall j | Opened(cfg, es, j, k) :: Holds(cfg, UsersAt(cfg, es, k), es[j])
  }

  lemma OtherCallsOpenNothing(cfg: Config, es: seq<Event>, n: nat)
    requires n < |es| && !es[n].Register?
    ensures UsersAt(cfg, es, n + 1) == UsersAt(cfg, es, n)
  {
    assert es[..n + 1][..n] == es[..n];
  }

  /** What one registration does to the accounts. */
  lemma RegisterEffect(cfg: Config, es: seq<Event>, n: nat)
    requires n < |es| && es[n].Register?
    ensures AnswerTo(cfg, es, n).Person?
    ensures var u, u', m := UsersAt(cfg, es, n), UsersAt(cfg, es, n + 1), Mail(cfg, es[n]);
            if AnswerTo(cfg, es, n).r.Err? then u' == u
            else && es[n].passwordHash.Some? && m !in u.byEmail && es[n].id !in u.byId
                 && u'.byId == u.byId[es[n].id := Account(m, es[n].passwordHash.value)]
                 && u'.byEmail == u.byEmail[m := es[n].id]
  {
    assert es[..n + 1][..n] == es[..n];
  }

  lemma OpenedLater(cfg: Config, es: seq<Event>, n: nat)
    requires n < |es|
    ensures forall j | Opened(cfg, es, j, n + 1) :: Opened(cfg, es, j, n) || j == n
    ensures forall j | Opened(cfg, es, j, n) :: Opened(cfg, es, j, n + 1)
  {
  }

  lemma EntriesStep(cfg: Config, es: seq<Event>, n: nat)
    requires n < |es| && EntriesOpened(cfg, es, n)
    ensures EntriesOpened(cfg, es, n + 1)
  {
    hide AnswerTo, UsersAt, Mail;
    OpenedLater(cfg, es, n);
    if es[n].Register? {
      RegisterEffect(cfg, es, n);
      if AnswerTo(cfg, es, n).r.Ok? { assert Opened(cfg, es, n, n + 1); }
    } else {
      OtherCallsOpenNothing(cfg, es, n);
    }
  }

  lemma StoredStep(cfg: Config, es: seq<Event>, n: nat)
    requires n < |es| && OpenedStored(cfg, es, n)
    ensures OpenedStored(cfg, es, n + 1)
  {
    hide AnswerTo, UsersAt, Mail;
    OpenedLater(cfg, es, n);
    if es[n].Register? {
      RegisterEffect(cfg, es, n);
      if AnswerTo(cfg, es, n).r.Ok? { assert Opened(cfg, es, n, n + 1); }
    } else {
      OtherCallsOpenNothing(cfg, es, n);
    }
  }

  /** Over every run, the accounts are exactly those its calls opened. */
  lemma {:induction false} AccountsFromCalls(cfg: Config, es: seq<Event>, k: nat)
    requires k <= |es|
    ensures EntriesOpened(cfg, es, k) && OpenedStored(cfg, es, k)
  {
    if k == 0 {
      assert UsersAt(cfg, es, 0) == NOBODY;
    } else {
      AccountsFromCalls(cfg, es, k - 1);
      EntriesStep(cfg, es, k - 1);
      StoredStep(cfg, es, k - 1);
    }
  }

  /** The answer to a registration, told by the accounts. */
  lemma RegisterAnswer(cfg: Config, es: seq<Event>, k: nat)
    requires k < |es| && es[k].Register?
    ensures var e, u, m := es[k], UsersAt(cfg, es, k), Mail(cfg, es[k]);
            AnswerTo(cfg, es, k) == Person(
              if m == "" || '@' !in m then Err(InvalidInput)
              else if |e.password| < 8 || Bytes(e.password) > 72 then Err(WeakPassword)
              else if e.passwordHash.None? || !e.up then Err(Internal)
              else if m in u.byEmail || e.id in u.byId then Err(EmailTaken)
              else Ok(User(e.id, m)))
  {
  }

  /** The answer to every registration. It opens an account exactly when the trimmed and lower-cased email is
      not empty and has an @, the password has 8 characters or more and 72 bytes or less, hashing and the
      insertion work, and no earlier registration took the email or the id. */
  lemma RegistersExactly(cfg: Config, es: seq<Event>, k: nat)
    requires k < |es| && es[k].Register?
    ensures var e, m := es[k], cfg.lower(Search.Trim(es[k].email));
            AnswerTo(cfg, es, k) == Person(
              if m == "" || '@' !in m then Err(InvalidInput)
              else if |e.password| < 8 || Bytes(e.password) > 72 then Err(WeakPassword)
              else if e.passwordHash.None? || !e.up then Err(Internal)
              else if exists j :: Opened(cfg, es, j, k) && (Mail(cfg, es[j]) == m || es[j].id == e.id)
              then Err(EmailTaken)
              else Ok(User(e.id, m)))
  {
    hide AnswerTo, UsersAt;
    AccountsFromCalls(cfg, es, k);
    RegisterAnswer(cfg, es, k);
    var u, m := UsersAt(cfg, es, k), Mail(cfg, es[k]);
    if j :| Opened(cfg, es, j, k) && (Mail(cfg, es[j]) == m || es[j].id == es[k].id) {
      assert Holds(cfg, u, es[j]);
    }
  }

  /** The answer to a login whose token is new, told by the accounts. */
  lemma LoginAnswer(cfg: Config, es: seq<Event>, k: nat)
    requires Sane(cfg, es) && k < |es| && es[k].Login?
    ensures var e, u, m := es[k], UsersAt(cfg, es, k), Mail(cfg, es[k]);
            AnswerTo(cfg, es, k) == Person(
              if !e.up then Err(Internal)
              else if m !in u.byEmail || u.byEmail[m] !in u.byId
                      || !cfg.check(u.byId[u.byEmail[m]].passwordHash, e.password) then Err(BadCredentials)
              else if !e.upWrite then Err(Internal) else Ok(User(u.byEmail[m], m)))
  {
    hide Step, Run;
    SessionsRefine(cfg, es, k);
    RunStands(cfg, es[..k], es[k].now);
  }

  /** The answer to every login. It names a user exactly when the lookup and the insertion of the session work
      and an earlier registration opened an account under the same normalised email with a hash that fits the
      password; the user is then the registered one. With no such registration the credentials are bad. */
  lemma LoginsExactly(cfg: Config, es: seq<Event>, k: nat)
    requires Sane(cfg, es) && k < |es| && es[k].Login?
    ensures AnswerTo(cfg, es, k).Person?
    ensures var e, r := es[k], AnswerTo(cfg, es, k).r;
            && (r.Ok? <==> e.up && e.upWrite && exists j :: Admits(cfg, es, j, k))
            && (r.Err? ==> r.error == if e.up && !exists j :: Admits(cfg, es, j, k) then BadCredentials else Internal)
            && forall j | Admits(cfg, es, j, k) && r.Ok? ::
                 r == Ok(User(es[j].id, cfg.lower(Search.Trim(e.email))))
  {
    hide AnswerTo, UsersAt, Sane;
    AccountsFromCalls(cfg, es, k);
    LoginAnswer(cfg, es, k);
    var u, m := UsersAt(cfg, es, k), Mail(cfg, es[k]);
    if m in u.byEmail {
      var j :| Opened(cfg, es, j, k) && Mail(cfg, es[j]) == m;
      assert Holds(cfg, u, es[j]);
      assert Admits(cfg, es, j, k) <==> cfg.check(u.byId[u.byEmail[m]].passwordHash, es[k].password);
    }
  }
}
