/** Invitation and password-reset links of staff accounts, and what accepting one does to the account's sessions.

    Accepting a link locks what it reads. Sending a link again and saving an account form do not: they load the account in
    one step and write it in another. */
module Invitations {
  import Consumer = ChatConsumer
  import opened Sums
  import Tickets = ChatTickets
  import opened Wrappers

  /** `password` is None while it is unusable. */
  datatype Account = Account(active: bool, password: Option<string>, mustChange: bool, sessionVersion: nat)

  datatype Purpose = Invite | Reset

  /** The stored hash of a token, hashing being injective, is the token. */
  datatype Invitation = Invitation(user: nat, token: nat, expiresAt: int, accepted: Option<int>, revoked: Option<int>,
                                   purpose: Purpose)

  /** An account as a request in progress has loaded it. */
  datatype Copy = Copy(user: nat, row: Account)

  /** `copies` are held by the requests in progress, each under its own number. */
  datatype Site = Site(now: int, accounts: map<nat, Account>, links: seq<Invitation>, copies: map<nat, Copy>)

  datatype LinkState = Valid | Accepted | Expired | Revoked | Unknown
  datatype Refusal = Unusable(state: LinkState) | WeakPassword | InactiveUser | NotAllowed

  predicate Open(link: Invitation) {
    link.accepted.None? && link.revoked.None?
  }

  predicate Active(site: Site, user: nat) {
    user in site.accounts && site.accounts[user].active
  }

  /** An accepted link is never reported as expired, and the links of a deactivated account count as revoked. */
  function StateOf(site: Site, link: Invitation): LinkState {
    if link.accepted.Some? then Accepted
    else if link.revoked.Some? then Revoked
    else if link.expiresAt <= site.now then Expired
    else if Active(site, link.user) then Valid
    else Revoked
  }

  function Find(links: seq<Invitation>, token: nat): nat {
    First(links, (link: Invitation) => link.token == token)
  }

  function StateOfToken(site: Site, token: nat): LinkState {
    var i := Find(site.links, token);
    if i < |site.links| then StateOf(site, site.links[i]) else Unknown
  }

  /** Every open link of the user revoked. */
  function RevokeOpen(links: seq<Invitation>, user: nat, now: int): (after: seq<Invitation>)
    ensures |after| == |links|
    ensures forall i :: 0 <= i < |links| ==>
              after[i] == if links[i].user == user && Open(links[i]) then links[i].(revoked := Some(now)) else links[i]
  {
    seq(|links|, i requires 0 <= i < |links| =>
      if links[i].user == user && Open(links[i]) then links[i].(revoked := Some(now)) else links[i])
  }

  function Issue(site: Site, user: nat, token: nat, purpose: Purpose, ttl: nat): Site {
    site.(links := RevokeOpen(site.links, user, site.now)
                   + [Invitation(user, token, site.now + ttl, None, None, purpose)])
  }

  predicate IsSetUp(account: Account) {
    account.password.Some? && !account.mustChange
  }

  /** A new account starts with an unusable password and either a temporary one or an invitation link. */
  function Create(site: Site, user: nat, temporary: Option<string>, token: nat, ttl: nat): Site {
    if temporary.Some? then site.(accounts := site.accounts[user := Account(true, temporary, true, 1)])
    else Issue(site.(accounts := site.accounts[user := Account(true, None, false, 1)]), user, token, Invite, ttl)
  }

  /** Everything is decided by the loaded account; an invitation then makes the password of the stored one unusable. */
  function Resend(site: Site, user: nat, loaded: Account, token: nat, mayManage: bool, ttl: nat)
    : (Site, Result<Purpose, Refusal>)
    requires user in site.accounts
  {
    if !mayManage then (site, Failure(NotAllowed))
    else if !loaded.active then (site, Failure(InactiveUser))
    else if IsSetUp(loaded) then (Issue(site, user, token, Reset, ttl), Success(Reset))
    else
      var unusable := site.accounts[user].(password := None, mustChange := false);
      (Issue(site, user, token, Invite, ttl).(accounts := site.accounts[user := unusable]), Success(Invite))
  }

  function Accept(site: Site, token: nat, password: string, acceptable: bool): (Site, Result<nat, Refusal>) {
    var i, state := Find(site.links, token), StateOfToken(site, token);
    if state != Valid then (site, Failure(Unusable(state)))
    else if !acceptable then (site, Failure(WeakPassword))
    else
      var link := site.links[i];
      var account := site.accounts[link.user].(password := Some(password), mustChange := false);
      var version := if link.purpose.Reset? then account.sessionVersion + 1 else account.sessionVersion;
      (site.(accounts := site.accounts[link.user := account.(sessionVersion := version)],
             links := site.links[i := link.(accepted := Some(site.now))]), Success(link.user))
  }

  // ---- runs ----

  /** `Load` is the unlocked read of an account at the start of a request; what the request does with it comes later.
      `Save` writes the whole loaded row back: the profile form as it was, an account form or command (`edited`) with
      other columns but never another session version. `Change` is any other service: it names its columns or locks the
      row, and may raise the session version. */
  datatype Step =
    | Wait(passing: nat)
    | NewAccount(user: nat, temporary: Option<string>, token: nat)
    | Load(request: nat, user: nat)
    | SendAgain(request: nat, token: nat, mayManage: bool)
    | RevokeAll(user: nat)
    | Use(token: nat, password: string, acceptable: bool)
    | Save(request: nat, edited: Option<Account>)
    | Change(user: nat, row: Account, raise: nat)

  predicate FreshToken(site: Site, token: nat) {
    Find(site.links, token) == |site.links|
  }

  predicate Holds(site: Site, request: nat) {
    request in site.copies && site.copies[request].user in site.accounts
  }

  predicate HoldsCopyOf(site: Site, request: nat, user: nat) {
    request in site.copies && site.copies[request].user == user
  }

  function Written(loaded: Account, edited: Option<Account>): Account {
    if edited.Some? then edited.value.(sessionVersion := loaded.sessionVersion) else loaded
  }

  function Next(ttl: nat, site: Site, step: Step): Site {
    match step
    case Wait(passing) => site.(now := site.now + passing)
    case NewAccount(user, temporary, token) =>
      if user in site.accounts || !FreshToken(site, token) then site else Create(site, user, temporary, token, ttl)
    case Load(request, user) =>
      if user !in site.accounts || request in site.copies then site
      else site.(copies := site.copies[request := Copy(user, site.accounts[user])])
    case SendAgain(request, token, mayManage) =>
      if !Holds(site, request) || !FreshToken(site, token) then site
      else
        var copy := site.copies[request];
        Resend(site, copy.user, copy.row, token, mayManage, ttl).0
    case RevokeAll(user) => site.(links := RevokeOpen(site.links, user, site.now))
    case Use(token, password, acceptable) => Accept(site, token, password, acceptable).0
    case Save(request, edited) =>
      if !Holds(site, request) then site
      else site.(accounts := site.accounts[site.copies[request].user := Written(site.copies[request].row, edited)])
    case Change(user, row, raise) =>
      if user !in site.accounts then site
      else
        var version := site.accounts[user].sessionVersion + raise;
        site.(accounts := site.accounts[user := row.(sessionVersion := version)])
  }

  function RunFrom(ttl: nat, site: Site, steps: seq<Step>): Site {
    if steps == [] then site else Next(ttl, RunFrom(ttl, site, steps[..|steps| - 1]), steps[|steps| - 1])
  }

  const Start := Site(0, map[], [], map[])

  function Run(ttl: nat, steps: seq<Step>): Site {
    RunFrom(ttl, Start, steps)
  }

  /** Tokens are distinct, links belong to accounts, none is both accepted and revoked, and of a user's links only the
      last can be open; copies are of accounts. */
  ghost predicate Inv(site: Site) {
    && (forall i, j :: 0 <= i < j < |site.links| ==>
          site.links[i].token != site.links[j].token
          && (site.links[i].user == site.links[j].user ==> !Open(site.links[i])))
    && (forall i :: 0 <= i < |site.links| ==>
          site.links[i].user in site.accounts && !(site.links[i].accepted.Some? && site.links[i].revoked.Some?))
    && (forall r <- site.copies :: site.copies[r].user in site.accounts)
  }

  /** Links, accounts and copies stay, links with their user, token and purpose; accepted and revoked are final. */
  ghost predicate Ages(before: Site, after: Site) {
    && |before.links| <= |after.links|
    && (forall i :: 0 <= i < |before.links| ==>
          var was, now := before.links[i], after.links[i];
          && now.user == was.user && now.token == was.token && now.purpose == was.purpose && now.expiresAt == was.expiresAt
          && (!Open(was) ==> now == was))
    && before.accounts.Keys <= after.accounts.Keys
    && (forall r <- before.copies :: r in after.copies && after.copies[r] == before.copies[r])
    && before.now <= after.now
  }

  lemma IssueKeepsLinks(site: Site, user: nat, token: nat, purpose: Purpose, ttl: nat)
    requires Inv(site) && user in site.accounts && FreshToken(site, token)
    ensures Inv(Issue(site, user, token, purpose, ttl)) && Ages(site, Issue(site, user, token, purpose, ttl))
  {
  }

  lemma NewAccountKeepsLinks(ttl: nat, site: Site, user: nat, temporary: Option<string>, token: nat)
    requires Inv(site) && user !in site.accounts && FreshToken(site, token)
    ensures Inv(Create(site, user, temporary, token, ttl)) && Ages(site, Create(site, user, temporary, token, ttl))
  {
    var created := site.(accounts := site.accounts[user := Account(true, None, false, 1)]);
    assert Inv(created) && Ages(site, created) && FreshToken(created, token);
    IssueKeepsLinks(created, user, token, Invite, ttl);
  }

  lemma ResendKeepsLinks(ttl: nat, site: Site, user: nat, loaded: Account, token: nat, mayManage: bool)
    requires Inv(site) && user in site.accounts && FreshToken(site, token)
    ensures var after := Resend(site, user, loaded, token, mayManage, ttl).0; Inv(after) && Ages(site, after)
  {
    IssueKeepsLinks(site, user, token, Invite, ttl);
    IssueKeepsLinks(site, user, token, Reset, ttl);
  }

  lemma AcceptKeepsLinks(site: Site, token: nat, password: string, acceptable: bool)
    requires Inv(site)
    ensures Inv(Accept(site, token, password, acceptable).0) && Ages(site, Accept(site, token, password, acceptable).0)
  {
  }

  lemma {:induction false} StepKeepsLinks(ttl: nat, site: Site, step: Step)
    requires Inv(site)
    ensures Inv(Next(ttl, site, step)) && Ages(site, Next(ttl, site, step))
  {
    match step
    case Wait(_) =>
    case NewAccount(user, temporary, token) =>
      if user !in site.accounts && FreshToken(site, token) {
        NewAccountKeepsLinks(ttl, site, user, temporary, token);
      }
    case Load(_, _) =>
    case SendAgain(request, token, mayManage) =>
      if Holds(site, request) && FreshToken(site, token) {
        ResendKeepsLinks(ttl, site, site.copies[request].user, site.copies[request].row, token, mayManage);
      }
    case RevokeAll(_) =>
    case Use(token, password, acceptable) => AcceptKeepsLinks(site, token, password, acceptable);
    case Save(_, _) =>
    case Change(_, _, _) =>
  }

  lemma {:induction false} RunKeepsLinks(ttl: nat, site: Site, steps: seq<Step>)
    requires Inv(site)
    ensures Inv(RunFrom(ttl, site, steps)) && Ages(site, RunFrom(ttl, site, steps))
  {
    if steps != [] {
      RunKeepsLinks(ttl, site, steps[..|steps| - 1]);
      StepKeepsLinks(ttl, RunFrom(ttl, site, steps[..|steps| - 1]), steps[|steps| - 1]);
    }
  }

  /** In every reachable state a user has at most one open link, the newest, and none is both accepted and revoked. */
  lemma AtMostOneOpenLink(ttl: nat, steps: seq<Step>)
    ensures Inv(Run(ttl, steps))
  {
    RunKeepsLinks(ttl, Start, steps);
  }

  // ---- what a token is good for ----

  predicate Succeeds(site: Site, step: Step) {
    step.Use? && Accept(site, step.token, step.password, step.acceptable).1.Success?
  }

  /** A token sets a password exactly when it is the token of its user's newest link, that link is neither accepted,
      revoked nor expired, the account is active, and the password is good enough. */
  lemma AcceptsExactlyTheNewestLink(ttl: nat, steps: seq<Step>, use: Step)
    requires use.Use?
    ensures var site := Run(ttl, steps);
            Succeeds(site, use) <==>
              && use.acceptable
              && exists i :: 0 <= i < |site.links| && site.links[i].token == use.token && Open(site.links[i])
                             && site.now < site.links[i].expiresAt && Active(site, site.links[i].user)
                             && (forall j :: i < j < |site.links| ==> site.links[j].user != site.links[i].user)
  {
    AtMostOneOpenLink(ttl, steps);
  }

  /** A link that is not valid for more than its owner being deactivated never becomes valid again. */
  predicate Finished(site: Site, i: nat) {
    i < |site.links| && (!Open(site.links[i]) || site.links[i].expiresAt <= site.now)
  }

  lemma {:induction false} FinishedLinksStayFinished(ttl: nat, site: Site, steps: seq<Step>, i: nat)
    requires Inv(site) && Finished(site, i)
    ensures var later := RunFrom(ttl, site, steps);
            && Finished(later, i) && later.links[i].token == site.links[i].token
            && StateOfToken(later, site.links[i].token) != Valid
  {
    RunKeepsLinks(ttl, site, steps);
  }

  /** Why a link does or does not work: it was used; or it, or its account, was withdrawn; or its time is over. */
  lemma {:induction false} TheStateSaysWhy(ttl: nat, steps: seq<Step>, i: nat)
    requires i < |Run(ttl, steps).links|
    ensures var site := Run(ttl, steps);
            var link, state := site.links[i], StateOfToken(site, site.links[i].token);
            && (state == Accepted <==> link.accepted.Some?)
            && (state == Valid <==> link.accepted.None? && link.revoked.None? && site.now < link.expiresAt
                                    && Active(site, link.user))
            && (state == Expired <==> link.accepted.None? && link.revoked.None? && site.now >= link.expiresAt)
            && (state == Revoked <==> link.accepted.None? && (link.revoked.Some?
                                      || (site.now < link.expiresAt && !Active(site, link.user))))
  {
    AtMostOneOpenLink(ttl, steps);
    FoundAt(Run(ttl, steps).links, Run(ttl, steps).links[i].token, i);
  }

  lemma NewLinksAreFresh(ttl: nat, site: Site, issue: Step)
    requires |Next(ttl, site, issue).links| > |site.links|
    ensures var after := Next(ttl, site, issue);
            var link := after.links[|site.links|];
            && after.now == site.now && |after.links| == |site.links| + 1
            && link == Invitation(link.user, link.token, site.now + ttl, None, None, link.purpose)
            && forall j :: 0 <= j < |site.links| ==> after.links[j].token == site.links[j].token
  {
  }

  /** Left alone, a new link of an active account works exactly while it is younger than its lifetime. */
  lemma {:induction false} ALinkLastsItsLifetime(ttl: nat, steps: seq<Step>, issue: Step, d: nat)
    requires var site := Run(ttl, steps);
             var after := Next(ttl, site, issue);
             |after.links| > |site.links| && Active(after, after.links[|site.links|].user)
    ensures var site := Run(ttl, steps);
            var after := Next(ttl, site, issue);
            StateOfToken(Next(ttl, after, Wait(d)), after.links[|site.links|].token) == if d < ttl then Valid else Expired
  {
    var site := Run(ttl, steps);
    var after := Next(ttl, site, issue);
    AtMostOneOpenLink(ttl, steps);
    StepKeepsLinks(ttl, site, issue);
    NewLinksAreFresh(ttl, site, issue);
    FoundAt(after.links, after.links[|site.links|].token, |site.links|);
  }

  /** Issuing a link finishes every older link of its user for good. */
  lemma {:induction false} IssuingKillsOlderLinks(ttl: nat, steps: seq<Step>, issue: Step, more: seq<Step>, i: nat)
    requires var links, after := Run(ttl, steps).links, Next(ttl, Run(ttl, steps), issue).links;
             i < |links| < |after| && links[i].user == after[|links|].user
    ensures StateOfToken(RunFrom(ttl, Next(ttl, Run(ttl, steps), issue), more), Run(ttl, steps).links[i].token) != Valid
  {
    var site := Run(ttl, steps);
    AtMostOneOpenLink(ttl, steps);
    StepKeepsLinks(ttl, site, issue);
    FinishedLinksStayFinished(ttl, Next(ttl, site, issue), more, i);
  }

  function PasswordsSetBy(ttl: nat, steps: seq<Step>, token: nat): nat {
    if steps == [] then 0
    else
      var last := steps[|steps| - 1];
      PasswordsSetBy(ttl, steps[..|steps| - 1], token)
      + if last.Use? && last.token == token && Succeeds(Run(ttl, steps[..|steps| - 1]), last) then 1 else 0
  }

  lemma FoundAt(links: seq<Invitation>, token: nat, i: nat)
    requires i < |links| && links[i].token == token && forall j :: 0 <= j < i ==> links[j].token != token
    ensures Find(links, token) == i
  {
  }

  lemma AcceptedStays(before: Site, after: Site, token: nat)
    requires Ages(before, after) && StateOfToken(before, token) == Accepted
    ensures StateOfToken(after, token) == Accepted
  {
    FoundAt(after.links, token, Find(before.links, token));
  }

  lemma SuccessIsRemembered(ttl: nat, site: Site, use: Step)
    requires Inv(site) && Succeeds(site, use)
    ensures StateOfToken(site, use.token) != Accepted && StateOfToken(Next(ttl, site, use), use.token) == Accepted
  {
    FoundAt(Next(ttl, site, use).links, use.token, Find(site.links, use.token));
  }

  lemma {:induction false} UsesAreRemembered(ttl: nat, steps: seq<Step>, token: nat)
    ensures PasswordsSetBy(ttl, steps, token) <= 1
    ensures PasswordsSetBy(ttl, steps, token) == 1 ==> StateOfToken(Run(ttl, steps), token) == Accepted
  {
    if steps != [] {
      var site, last := Run(ttl, steps[..|steps| - 1]), steps[|steps| - 1];
      UsesAreRemembered(ttl, steps[..|steps| - 1], token);
      AtMostOneOpenLink(ttl, steps[..|steps| - 1]);
      StepKeepsLinks(ttl, site, last);
      if StateOfToken(site, token) == Accepted {
        AcceptedStays(site, Next(ttl, site, last), token);
      }
      if Succeeds(site, last) && last.token == token {
        SuccessIsRemembered(ttl, site, last);
      }
    }
  }

  /** Over any run, each token sets a password at most once. */
  lemma ATokenWorksAtMostOnce(ttl: nat, steps: seq<Step>, token: nat)
    ensures PasswordsSetBy(ttl, steps, token) <= 1
  {
    UsesAreRemembered(ttl, steps, token);
  }

  // ---- new accounts and links sent again ----

  /** The last link is new, open and for this user, who has no other open one; other users' links are as they were. */
  ghost predicate OneNewLink(before: Site, after: Site, user: nat, token: nat, purpose: Purpose, ttl: nat) {
    && |after.links| == |before.links| + 1
    && after.links[|before.links|] == Invitation(user, token, before.now + ttl, None, None, purpose)
    && forall i :: 0 <= i < |before.links| ==>
         if before.links[i].user == user && before.links[i].accepted.None? && before.links[i].revoked.None?
         then after.links[i] == before.links[i].(revoked := Some(before.now)) else after.links[i] == before.links[i]
  }

  /** A new account is active at session version 1, without a usable password and with one invitation, or with a temporary
      password to be changed and no link; nobody else's account moves. */
  lemma HowAnAccountStarts(ttl: nat, site: Site, user: nat, temporary: Option<string>, token: nat)
    requires user !in site.accounts
    ensures var after := Create(site, user, temporary, token, ttl);
            && after.accounts.Keys == site.accounts.Keys + {user}
            && after.accounts[user].active && after.accounts[user].sessionVersion == 1
            && after.accounts[user].password == temporary
            && (after.accounts[user].mustChange <==> temporary.Some?)
            && (forall other <- site.accounts :: after.accounts[other] == site.accounts[other])
            && (if temporary.Some? then after.links == site.links
                else OneNewLink(site, after, user, token, Invite, ttl))
            && after.now == site.now && after.copies == site.copies
  {
  }

  /** Sending a link again is refused, changing nothing, to those who may not manage the account and for an inactive one.
      Otherwise one new link replaces the open ones: a reset that leaves the account alone if the person had a password of
      their own when it was loaded, and else an invitation that leaves them without a password and nothing to change. */
  lemma HowALinkIsSentAgain(ttl: nat, site: Site, user: nat, loaded: Account, token: nat, mayManage: bool)
    requires user in site.accounts
    ensures var (after, told) := Resend(site, user, loaded, token, mayManage, ttl);
            && (told == Failure(NotAllowed) <==> !mayManage)
            && (told == Failure(InactiveUser) <==> mayManage && !loaded.active)
            && (told == Success(Reset) <==> mayManage && loaded.active && loaded.password.Some? && !loaded.mustChange)
            && (told == Success(Invite) <==> mayManage && loaded.active && (loaded.password.None? || loaded.mustChange))
            && (told.Failure? ==> after == site)
            && (told.Success? ==>
                  && OneNewLink(site, after, user, token, told.value, ttl)
                  && after.now == site.now && after.copies == site.copies
                  && after.accounts.Keys == site.accounts.Keys
                  && (forall other <- site.accounts :: other != user || told.value.Reset? ==>
                        after.accounts[other] == site.accounts[other])
                  && (told.value.Invite? ==>
                        var was, now := site.accounts[user], after.accounts[user];
                        now == Account(was.active, None, false, was.sessionVersion)))
  {
  }

  // ---- what a set-up account keeps ----

  /** The step uses a link of the user, or another service or account form sets columns of the user's row. */
  predicate Writes(site: Site, step: Step, user: nat) {
    || (step.Change? && step.user == user)
    || (step.Save? && step.edited.Some? && HoldsCopyOf(site, step.request, user))
    || (Succeeds(site, step) && site.links[Find(site.links, step.token)].user == user)
  }

  predicate NobodyWrites(ttl: nat, site: Site, steps: seq<Step>, user: nat) {
    forall k :: 0 <= k < |steps| ==> !Writes(RunFrom(ttl, site, steps[..k]), steps[k], user)
  }

  predicate Kept(ready: Site, now: Site, user: nat) {
    user in ready.accounts && user in now.accounts && now.accounts[user] == ready.accounts[user]
  }

  /** The step acts on a copy that was already loaded when the account was ready: it saves one that differs from it, or
      sends an invitation because the copy is not set up. */
  predicate Undoes(ready: Site, now: Site, step: Step, user: nat)
    requires user in ready.accounts
  {
    && (step.Save? || step.SendAgain?) && HoldsCopyOf(ready, step.request, user)
    && var loaded := ready.copies[step.request].row;
       if step.Save? then loaded != ready.accounts[user]
       else step.mayManage && loaded.active && !IsSetUp(loaded) && FreshToken(now, step.token)
  }

  /** Copies of the user loaded since then show the account as it was. */
  ghost predicate NewCopiesAreCurrent(ready: Site, now: Site, user: nat)
    requires user in ready.accounts
  {
    forall r :: HoldsCopyOf(now, r, user) && r !in ready.copies ==> now.copies[r].row == ready.accounts[user]
  }

  lemma KeptUnlessUndone(ttl: nat, ready: Site, now: Site, step: Step, user: nat)
    requires Inv(ready) && Inv(now) && Ages(ready, now) && user in ready.accounts && IsSetUp(ready.accounts[user])
    requires Kept(ready, now, user) && NewCopiesAreCurrent(ready, now, user) && !Writes(now, step, user)
    ensures Kept(ready, Next(ttl, now, step), user) <==> !Undoes(ready, now, step, user)
    ensures NewCopiesAreCurrent(ready, Next(ttl, now, step), user)
  {
  }

  predicate AlwaysKept(ttl: nat, ready: Site, more: seq<Step>, user: nat) {
    forall n :: 0 <= n <= |more| ==> Kept(ready, RunFrom(ttl, ready, more[..n]), user)
  }

  predicate NothingUndoes(ttl: nat, ready: Site, more: seq<Step>, user: nat)
    requires user in ready.accounts
  {
    forall k :: 0 <= k < |more| ==> !Undoes(ready, RunFrom(ttl, ready, more[..k]), more[k], user)
  }

  lemma {:induction false} KeptByThePrefix(ttl: nat, ready: Site, more: seq<Step>, user: nat)
    requires more != []
    ensures AlwaysKept(ttl, ready, more, user) <==>
              AlwaysKept(ttl, ready, more[..|more| - 1], user) && Kept(ready, RunFrom(ttl, ready, more), user)
  {
    var init := more[..|more| - 1];
    assert forall n :: 0 <= n <= |init| ==> init[..n] == more[..n];
    assert more[..|more|] == more;
  }

  lemma {:induction false} UndoneByThePrefix(ttl: nat, ready: Site, more: seq<Step>, user: nat)
    requires more != [] && user in ready.accounts
    ensures var init, last := more[..|more| - 1], more[|more| - 1];
            NothingUndoes(ttl, ready, more, user) <==>
              NothingUndoes(ttl, ready, init, user) && !Undoes(ready, RunFrom(ttl, ready, init), last, user)
  {
    var init := more[..|more| - 1];
    assert forall k :: 0 <= k < |init| ==> init[..k] == more[..k] && init[k] == more[k];
  }

  lemma {:induction false} UnwrittenByThePrefix(ttl: nat, site: Site, more: seq<Step>, user: nat)
    requires more != [] && NobodyWrites(ttl, site, more, user)
    ensures var init, last := more[..|more| - 1], more[|more| - 1];
            NobodyWrites(ttl, site, init, user) && !Writes(RunFrom(ttl, site, init), last, user)
  {
    var init := more[..|more| - 1];
    assert forall k :: 0 <= k < |init| ==> init[..k] == more[..k] && init[k] == more[k];
  }

  lemma {:induction false} KeptToTheEnd(ttl: nat, ready: Site, more: seq<Step>, user: nat)
    requires AlwaysKept(ttl, ready, more, user)
    ensures Kept(ready, RunFrom(ttl, ready, more), user)
  {
    assert more[..|more|] == more;
  }

  lemma {:induction false} KeptAlongARun(ttl: nat, ready: Site, more: seq<Step>, user: nat)
    requires Inv(ready) && user in ready.accounts && IsSetUp(ready.accounts[user])
    requires NobodyWrites(ttl, ready, more, user)
    ensures AlwaysKept(ttl, ready, more, user) <==> NothingUndoes(ttl, ready, more, user)
    ensures AlwaysKept(ttl, ready, more, user) ==> NewCopiesAreCurrent(ready, RunFrom(ttl, ready, more), user)
  {
    if more == [] {
      assert RunFrom(ttl, ready, more[..0]) == ready;
    } else {
      var init := more[..|more| - 1];
      KeptByThePrefix(ttl, ready, more, user);
      UndoneByThePrefix(ttl, ready, more, user);
      UnwrittenByThePrefix(ttl, ready, more, user);
      KeptAlongARun(ttl, ready, init, user);
      RunKeepsLinks(ttl, ready, init);
      if AlwaysKept(ttl, ready, init, user) {
        KeptToTheEnd(ttl, ready, init, user);
        KeptUnlessUndone(ttl, ready, RunFrom(ttl, ready, init), more[|more| - 1], user);
      }
    }
  }

  /** Someone who is set up keeps their account and password, however many reset links are sent, until a link is used or
      another service sets a column, exactly when nothing acts on a stale copy: no profile form saves a copy that differs
      from the account, and no link is sent again on a copy that was loaded before the account was set up. */
  lemma {:induction false} APasswordWorksUntilALinkIsUsed(ttl: nat, steps: seq<Step>, user: nat, more: seq<Step>)
    requires var site := Run(ttl, steps); user in site.accounts && IsSetUp(site.accounts[user])
    requires NobodyWrites(ttl, Run(ttl, steps), more, user)
    ensures AlwaysKept(ttl, Run(ttl, steps), more, user) <==> NothingUndoes(ttl, Run(ttl, steps), more, user)
  {
    AtMostOneOpenLink(ttl, steps);
    KeptAlongARun(ttl, Run(ttl, steps), more, user);
  }

  lemma RunThen(ttl: nat, site: Site, steps: seq<Step>, step: Step)
    ensures RunFrom(ttl, site, steps + [step]) == Next(ttl, RunFrom(ttl, site, steps), step)
  {
    assert (steps + [step])[..|steps|] == steps;
  }

  lemma RunThree(ttl: nat, site: Site, a: Step, b: Step, c: Step)
    ensures RunFrom(ttl, site, [a, b, c]) == Next(ttl, Next(ttl, Next(ttl, site, a), b), c)
  {
    RunThen(ttl, site, [], a);
    RunThen(ttl, site, [a], b);
    RunThen(ttl, site, [a, b], c);
    assert [a] == [] + [a] && [a, b] == [a] + [b] && [a, b, c] == [a, b] + [c];
  }

  /** Someone asks for the link of user 1 to be sent again; before it is, the person accepts the invitation. */
  const accepting := [NewAccount(1, None, 0), Load(7, 1), Use(0, "secret", true)]

  const invited := Account(true, None, false, 1)

  const settled := Account(true, Some("secret"), false, 1)

  lemma AnInvitationIsAccepted(link: Invitation)
    requires link.token == 0 && link.user == 1 && Open(link) && link.expiresAt > 0 && link.purpose.Invite?
    ensures var loaded := Site(0, map[1 := invited], [link], map[7 := Copy(1, invited)]);
            Accept(loaded, 0, "secret", true).0
            == Site(0, map[1 := settled], [link.(accepted := Some(0))], map[7 := Copy(1, invited)])
  {
    FoundAt([link], 0, 0);
  }

  lemma Accepting(ttl: nat)
    requires ttl > 0
    ensures Run(ttl, accepting)
            == Site(0, map[1 := settled], [Invitation(1, 0, ttl, Some(0), None, Invite)], map[7 := Copy(1, invited)])
  {
    var link := Invitation(1, 0, ttl, None, None, Invite);
    AnInvitationIsAccepted(link);
    RunThree(ttl, Start, NewAccount(1, None, 0), Load(7, 1), Use(0, "secret", true));
    assert Next(ttl, Start, NewAccount(1, None, 0)) == Site(0, map[1 := invited], [link], map[]);
  }

  /** A person accepts their invitation while a resend is under way: the new password is made unusable again, and only the
      new link, which is valid, gets them in. */
  lemma {:induction false} AStaleResendWipesThePassword(ttl: nat)
    requires ttl > 0
    ensures var ready, wiped := Run(ttl, accepting), Run(ttl, accepting + [SendAgain(7, 1, true)]);
            && 1 in ready.accounts && IsSetUp(ready.accounts[1]) && ready.accounts[1].password == Some("secret")
            && 1 in wiped.accounts && wiped.accounts[1].password == None && StateOfToken(wiped, 1) == Valid
  {
    Accepting(ttl);
    RunThen(ttl, Start, accepting, SendAgain(7, 1, true));
    var used := Invitation(1, 0, ttl, Some(0), None, Invite);
    assert FreshToken(Run(ttl, accepting), 1);
    FoundAt([used, Invitation(1, 1, ttl, None, None, Invite)], 1, 1);
  }

  /** Using a link sets the account up with that password and touches no other account; until then a person who has no
      password of their own is sent invitations, and afterwards, by whoever loads the account then, reset links. */
  lemma UsingALinkSetsTheAccountUp(ttl: nat, steps: seq<Step>, use: Step, token: nat)
    requires Succeeds(Run(ttl, steps), use)
    ensures var site := Run(ttl, steps);
            var user := site.links[Find(site.links, use.token)].user;
            var after := Next(ttl, site, use);
            && after.accounts[user].password == Some(use.password) && IsSetUp(after.accounts[user])
            && after.accounts[user].active == site.accounts[user].active
            && after.accounts[user].sessionVersion == site.accounts[user].sessionVersion
               + (if site.links[Find(site.links, use.token)].purpose.Reset? then 1 else 0)
            && (forall other <- site.accounts :: other != user ==> after.accounts[other] == site.accounts[other])
            && Resend(site, user, site.accounts[user], token, true, ttl).1
               == Success(if IsSetUp(site.accounts[user]) then Reset else Invite)
            && Resend(after, user, after.accounts[user], token, true, ttl).1 == Success(Reset)
  {
  }

  /** A temporary password does not count: sending a link to its holder makes it unusable. */
  lemma ALinkReplacesATemporaryPassword(ttl: nat, site: Site, user: nat, password: string, token: nat, link: nat)
    requires user !in site.accounts
    ensures var created := Create(site, user, Some(password), token, ttl);
            && created.accounts[user].password == Some(password) && !IsSetUp(created.accounts[user])
            && Resend(created, user, created.accounts[user], link, true, ttl).1 == Success(Invite)
            && Resend(created, user, created.accounts[user], link, true, ttl).0.accounts[user].password == None
  {
  }

  // ---- what a reset does to the sessions elsewhere ----

  /** The chat reads the session versions of these rows, whether or not the accounts are active. */
  ghost predicate ReadsVersions(db: Tickets.Directory, site: Site) {
    forall user <- db.users ::
      user in site.accounts && db.users[user].sessionVersion == site.accounts[user].sessionVersion
  }

  /** The chat reads the same account rows. */
  ghost predicate ReadsAccounts(db: Tickets.Directory, site: Site) {
    ReadsVersions(db, site) && forall user <- db.users :: db.users[user].active == site.accounts[user].active
  }

  /** The handshake refuses the ticket, and an open socket is told to close as unauthenticated. */
  predicate Refused(db: Tickets.Directory, user: nat, version: nat, groupId: nat) {
    && Tickets.AuthenticateClaims(db, Tickets.Claims(user, groupId, version), groupId).None?
    && Consumer.AccessCloseCode(db, Consumer.Session(Some(user), Some(version), groupId))
       == Some(4401)
  }

  predicate Past(site: Site, user: nat, version: nat) {
    user in site.accounts && site.accounts[user].sessionVersion > version
  }

  /** No session or ticket of the user up to this version is accepted. */
  ghost predicate SessionsAreOver(site: Site, user: nat, version: nat) {
    forall db, v: nat, groupId :: ReadsVersions(db, site) && v <= version ==> Refused(db, user, v, groupId)
  }

  lemma OverIffPast(site: Site, user: nat, version: nat)
    requires user in site.accounts
    ensures SessionsAreOver(site, user, version) <==> Past(site, user, version)
  {
    var v := site.accounts[user].sessionVersion;
    if v <= version {
      var db := Tickets.Directory(map[user := Tickets.User(true, v)], {0}, {(user, 0)});
      assert ReadsVersions(db, site) && !Refused(db, user, v, 0);
    }
  }

  /** The request saves a copy of the user loaded with no later a session version than this. */
  predicate SavesBehind(site: Site, step: Step, user: nat, version: nat) {
    && step.Save? && HoldsCopyOf(site, step.request, user)
    && site.copies[step.request].row.sessionVersion <= version
  }

  /** Copies that are behind were already held at `from`. */
  ghost predicate NewCopiesArePast(from: Site, now: Site, user: nat, version: nat) {
    forall r :: HoldsCopyOf(now, r, user) && r !in from.copies ==> now.copies[r].row.sessionVersion > version
  }

  lemma PastUnlessSavedBehind(ttl: nat, from: Site, now: Site, step: Step, user: nat, version: nat)
    requires Inv(from) && Inv(now) && Ages(from, now) && Past(now, user, version)
    requires NewCopiesArePast(from, now, user, version)
    ensures Past(Next(ttl, now, step), user, version) <==> !SavesBehind(from, step, user, version)
    ensures NewCopiesArePast(from, Next(ttl, now, step), user, version)
  {
  }

  predicate AlwaysPast(ttl: nat, from: Site, more: seq<Step>, user: nat, version: nat) {
    forall n :: 0 <= n <= |more| ==> Past(RunFrom(ttl, from, more[..n]), user, version)
  }

  predicate NothingSavesBehind(from: Site, more: seq<Step>, user: nat, version: nat) {
    forall k :: 0 <= k < |more| ==> !SavesBehind(from, more[k], user, version)
  }

  lemma {:induction false} PastByThePrefix(ttl: nat, from: Site, more: seq<Step>, user: nat, version: nat)
    requires more != []
    ensures AlwaysPast(ttl, from, more, user, version) <==>
              AlwaysPast(ttl, from, more[..|more| - 1], user, version) && Past(RunFrom(ttl, from, more), user, version)
  {
    var init := more[..|more| - 1];
    assert forall n :: 0 <= n <= |init| ==> init[..n] == more[..n];
    assert more[..|more|] == more;
  }

  lemma {:induction false} PastToTheEnd(ttl: nat, from: Site, more: seq<Step>, user: nat, version: nat)
    requires AlwaysPast(ttl, from, more, user, version)
    ensures Past(RunFrom(ttl, from, more), user, version)
  {
    assert more[..|more|] == more;
  }

  /** An account that has passed a session version stays past it exactly when no copy held at the start and loaded at that
      version or before is ever saved. */
  lemma {:induction false} PastForGoodIffNoStaleSave(ttl: nat, from: Site, more: seq<Step>, user: nat, version: nat)
    requires Inv(from) && Past(from, user, version)
    ensures AlwaysPast(ttl, from, more, user, version) <==> NothingSavesBehind(from, more, user, version)
    ensures AlwaysPast(ttl, from, more, user, version) ==>
              NewCopiesArePast(from, RunFrom(ttl, from, more), user, version)
  {
    if more == [] {
      assert RunFrom(ttl, from, more[..0]) == from;
    } else {
      var init := more[..|more| - 1];
      PastByThePrefix(ttl, from, more, user, version);
      PastForGoodIffNoStaleSave(ttl, from, init, user, version);
      RunKeepsLinks(ttl, from, init);
      if AlwaysPast(ttl, from, init, user, version) {
        PastToTheEnd(ttl, from, init, user, version);
        PastUnlessSavedBehind(ttl, from, RunFrom(ttl, from, init), more[|more| - 1], user, version);
      }
    }
  }

  /** A reset link of this user is used. */
  predicate Resets(site: Site, use: Step, user: nat) {
    && Succeeds(site, use)
    && var link := site.links[Find(site.links, use.token)]; link.purpose.Reset? && link.user == user
  }

  /** Once a reset link has been used, no session or handshake ticket from before it is accepted by the chat in any later
      state, exactly when no account form that loaded the account before the reset, at the session version it then had or
      an earlier one, is saved after it. */
  lemma {:induction false} AResetEndsEarlierSessions(ttl: nat, steps: seq<Step>, use: Step, more: seq<Step>, user: nat)
    requires Resets(Run(ttl, steps), use, user)
    ensures var before, after := Run(ttl, steps), Next(ttl, Run(ttl, steps), use);
            var version := before.accounts[user].sessionVersion;
            && after.copies == before.copies
            && ((forall n :: 0 <= n <= |more| ==> SessionsAreOver(RunFrom(ttl, after, more[..n]), user, version))
                <==> NothingSavesBehind(before, more, user, version))
  {
    var before, after := Run(ttl, steps), Next(ttl, Run(ttl, steps), use);
    var version := before.accounts[user].sessionVersion;
    AtMostOneOpenLink(ttl, steps);
    StepKeepsLinks(ttl, before, use);
    PastForGoodIffNoStaleSave(ttl, after, more, user, version);
    forall n | 0 <= n <= |more|
      ensures SessionsAreOver(RunFrom(ttl, after, more[..n]), user, version)
              <==> Past(RunFrom(ttl, after, more[..n]), user, version)
    {
      RunKeepsLinks(ttl, after, more[..n]);
      OverIffPast(RunFrom(ttl, after, more[..n]), user, version);
    }
  }

  /** A profile form that loads the account before a reset and is saved after it makes the earlier sessions of an active
      account valid again. */
  lemma {:induction false} AStaleProfileRevivesSessions(ttl: nat, steps: seq<Step>, request: nat, use: Step, user: nat,
                                                        db: Tickets.Directory, groupId: nat)
    requires Resets(Run(ttl, steps), use, user) && request !in Run(ttl, steps).copies
    requires user in db.users && groupId in db.liveGroups && (user, groupId) in db.mayAccess
    requires ReadsAccounts(db, RunFrom(ttl, Run(ttl, steps), [Load(request, user), use, Save(request, None)]))
    ensures var version := Run(ttl, steps).accounts[user].sessionVersion;
            && Tickets.AuthenticateClaims(db, Tickets.Claims(user, groupId, version), groupId) == Some(user)
            && Consumer.AccessCloseCode(db, Consumer.Session(Some(user), Some(version), groupId)) == None
  {
    var site := Run(ttl, steps);
    AtMostOneOpenLink(ttl, steps);
    RunThree(ttl, site, Load(request, user), use, Save(request, None));
  }

  /** The chat reads a state after the reset, no form that loaded the account before the reset having been saved. */
  ghost predicate SeesALaterState(db: Tickets.Directory, ttl: nat, after: Site, user: nat, version: nat) {
    exists more :: NothingSavesBehind(after, more, user, version) && ReadsVersions(db, RunFrom(ttl, after, more))
  }

  lemma {:induction false} ALaterStateRefuses(db: Tickets.Directory, ttl: nat, after: Site, user: nat, version: nat,
                                              who: Consumer.Session)
    requires Inv(after) && Past(after, user, version) && SeesALaterState(db, ttl, after, user, version)
    requires who.userId == Some(user) && who.sessionVersion.Some? && who.sessionVersion.value <= version
    ensures !Consumer.Granted(db, who)
  {
    var more :| NothingSavesBehind(after, more, user, version) && ReadsVersions(db, RunFrom(ttl, after, more));
    PastForGoodIffNoStaleSave(ttl, after, more, user, version);
    PastToTheEnd(ttl, after, more, user, version);
  }

  /** A socket opened before the reset creates a message only if that message's check came before the reset, so no later
      than the latency of acting after it, and 20 seconds (plus the two latencies) later it relays, stores and delivers
      nothing, as long as no form that loaded the account before the reset is saved after it. */
  lemma AResetSilencesOpenSockets(ttl: nat, steps: seq<Step>, use: Step, user: nat, who: Consumer.Session,
                                  history: Consumer.History, events: seq<Consumer.Event>, check: real, act: real,
                                  resetAt: real)
    requires Resets(Run(ttl, steps), use, user)
    requires && who.userId == Some(user) && who.sessionVersion.Some?
             && who.sessionVersion.value <= Run(ttl, steps).accounts[user].sessionVersion
    requires forall t: real :: resetAt <= t ==>
               SeesALaterState(history(t), ttl, Next(ttl, Run(ttl, steps), use), user,
                               Run(ttl, steps).accounts[user].sessionVersion)
    requires Consumer.Life(events) && Consumer.Prompt(events, check, act)
    ensures forall k :: 0 <= k < |events| && Consumer.Privileged(Consumer.EffectOf(history, who, events, k)) ==>
              && events[k].clock.acted < resetAt + 20.0 + check + act
              && (Consumer.EffectOf(history, who, events, k).MessageCreated? ==>
                    events[k].clock.checked < resetAt && events[k].clock.acted < resetAt + act)
  {
    var before := Run(ttl, steps);
    AtMostOneOpenLink(ttl, steps);
    StepKeepsLinks(ttl, before, use);
    forall t: real | resetAt <= t ensures !Consumer.Granted(history(t), who) {
      ALaterStateRefuses(history(t), ttl, Next(ttl, before, use), user, before.accounts[user].sessionVersion, who);
    }
    Consumer.RevocationTakesEffect(history, who, events, check, act, resetAt);
  }

  // ---- the service over its tables ----

  class InvitationService {
    const ttl: nat
    var accounts: map<nat, Account>
    var links: seq<Invitation>

    ghost function View(now: int): Site
      reads this
    {
      Site(now, accounts, links, map[])
    }

    constructor (ttl: nat)
      ensures this.ttl == ttl && accounts == map[] && links == []
    {
      this.ttl := ttl;
      accounts, links := map[], [];
    }

    method IssueLink(user: nat, token: nat, purpose: Purpose, now: int)
      modifies this`links
      ensures View(now) == Issue(old(View(now)), user, token, purpose, ttl)
    {
      links := RevokeOpen(links, user, now);
      links := links + [Invitation(user, token, now + ttl, None, None, purpose)];
    }

    method CreateAccount(user: nat, temporary: Option<string>, token: nat, now: int)
      requires user !in accounts
      modifies this
      ensures View(now) == Create(old(View(now)), user, temporary, token, ttl)
    {
      accounts := accounts[user := Account(true, None, false, 1)];
      if temporary.Some? {
        accounts := accounts[user := accounts[user].(password := temporary, mustChange := true)];
      } else {
        IssueLink(user, token, Invite, now);
      }
    }

    /** `loaded` is the account as the request read it beforehand, without a lock. */
    method ResendLink(user: nat, loaded: Account, token: nat, mayManage: bool, now: int)
      returns (sent: Result<Purpose, Refusal>)
      requires user in accounts
      modifies this
      ensures (View(now), sent) == Resend(old(View(now)), user, loaded, token, mayManage, ttl)
    {
      if !mayManage {
        return Failure(NotAllowed);
      }
      if !loaded.active {
        return Failure(InactiveUser);
      }
      var purpose := if IsSetUp(loaded) then Reset else Invite;
      IssueLink(user, token, purpose, now);
      if purpose.Invite? {
        accounts := accounts[user := accounts[user].(password := None, mustChange := false)];
      }
      sent := Success(purpose);
    }

    /** `count` is the number of links that were still open. */
    method Revoke(user: nat, now: int) returns (count: nat)
      modifies this`links
      ensures View(now) == old(View(now)).(links := RevokeOpen(old(links), user, now))
      ensures count == |set i | 0 <= i < |old(links)| && old(links)[i].user == user && Open(old(links)[i])|
    {
      count := |set i | 0 <= i < |links| && links[i].user == user && Open(links[i])|;
      links := RevokeOpen(links, user, now);
    }

    method AcceptLink(token: nat, password: string, acceptable: bool, now: int) returns (accepted: Result<nat, Refusal>)
      requires forall i :: 0 <= i < |links| ==> links[i].user in accounts
      modifies this
      ensures (View(now), accepted) == Accept(old(View(now)), token, password, acceptable)
    {
      var state := StateOfToken(Site(now, accounts, links, map[]), token);
      if state != Valid {
        return Failure(Unusable(state));
      }
      if !acceptable {
        return Failure(WeakPassword);
      }
      var i := Find(links, token);
      var user := links[i].user;
      accounts := accounts[user := accounts[user].(password := Some(password), mustChange := false)];
      links := links[i := links[i].(accepted := Some(now))];
      if links[i].purpose.Reset? {
        accounts := accounts[user := accounts[user].(sessionVersion := accounts[user].sessionVersion + 1)];
      }
      assert accounts == old(accounts)[user := accounts[user]];
      accepted := Success(user);
    }
  }
}
