/** The merchant's embed session: who a verified B2CORE subject is, and for how long. */
module EmbedSession {
  import opened Basics
  import opened Text

  const MERCHANT_ROLE := "merchant"

  datatype Login = Login(isActive: bool, role: string)

  datatype PanelMerchant = PanelMerchant(b2coreId: Option<string>, isActive: bool, isArchived: bool, user: Option<nat>)

  /** The rows the session is checked against, by primary key. */
  datatype Rows = Rows(merchants: seq<PanelMerchant>, logins: seq<Login>)

  datatype Session = Session(merchant: nat, user: nat, subject: string, expiresAt: int)

  datatype EmbedRefusal = NotAMerchant | MerchantArchived | MerchantSuspended | NoLoginAccount

  /** `Merchant.normalise_b2core_id`: blank in any of its forms is absent. */
  function NormaliseId(u: Unicode, raw: string): Option<string> {
    var id := Strip(u, raw);
    if id == "" then None else Some(id)
  }

  function FirstHolder(merchants: seq<PanelMerchant>, id: string): Option<nat> {
    if merchants == [] then None
    else
      match FirstHolder(merchants[..|merchants| - 1], id)
      case Some(m) => Some(m)
      case None => if merchants[|merchants| - 1].b2coreId == Some(id) then Some(|merchants| - 1) else None
  }

  predicate WorkingLogin(rows: Rows, user: Option<nat>) {
    user.Some? && user.value < |rows.logins|
    && rows.logins[user.value].isActive && rows.logins[user.value].role == MERCHANT_ROLE
  }

  function ResolveMerchant(u: Unicode, rows: Rows, subject: string): Result<nat, EmbedRefusal> {
    var id := Strip(u, subject);
    var found := if id == "" then None else FirstHolder(rows.merchants, id);
    match found
    case None => Refused(NotAMerchant)
    case Some(m) =>
      if m >= |rows.merchants| then Refused(NotAMerchant)
      else if rows.merchants[m].isArchived then Refused(MerchantArchived)
      else if !rows.merchants[m].isActive then Refused(MerchantSuspended)
      else if !WorkingLogin(rows, rows.merchants[m].user) then Refused(NoLoginAccount)
      else Ok(m)
  }

  /** The later of the token's own end and the ceiling is never granted. */
  function Expiry(now: int, maxSeconds: int, tokenExpiresAt: Option<int>): int {
    var ceiling := now + maxSeconds;
    var token := if tokenExpiresAt.None? || tokenExpiresAt.value == 0 then ceiling else tokenExpiresAt.value;
    if token < ceiling then token else ceiling
  }

  /** Whether the session still opens a merchant's panel, and which one. */
  function Opens(u: Unicode, rows: Rows, session: Option<Session>, now: int): Option<nat> {
    match session
    case None => None
    case Some(s) =>
      if s.expiresAt != 0 && now >= s.expiresAt then None
      else
        match ResolveMerchant(u, rows, s.subject)
        case Refused(_) => None
        case Ok(m) =>
          if m != s.merchant || rows.merchants[m].user != Some(s.user) then None else Some(m)
  }

  /** The store one browser's embed session lives in. */
  class Store {
    var session: Option<Session>

    constructor ()
      ensures session == None
    {
      session := None;
    }

    method End()
      modifies this
      ensures session == None
    {
      session := None;
    }

    method Start(rows: Rows, merchant: nat, subject: string, tokenExpiresAt: Option<int>, now: int, maxSeconds: int)
      requires merchant < |rows.merchants| && rows.merchants[merchant].user.Some?
      modifies this
      ensures session
            == Some(Session(merchant, rows.merchants[merchant].user.value, subject,
                            Expiry(now, maxSeconds, tokenExpiresAt)))
    {
      var ceiling := now + maxSeconds;
      var expiresAt := ceiling;
      if tokenExpiresAt.Some? && tokenExpiresAt.value != 0 && tokenExpiresAt.value < ceiling {
        expiresAt := tokenExpiresAt.value;
      }
      session := Some(Session(merchant, rows.merchants[merchant].user.value, subject, expiresAt));
    }

    /** Posting a verified token: resolve, then start or end. */
    method Enter(u: Unicode, rows: Rows, subject: string, tokenExpiresAt: Option<int>, now: int, maxSeconds: int)
      returns (r: Result<nat, EmbedRefusal>)
      modifies this
      ensures r == ResolveMerchant(u, rows, subject)
      ensures session == Entered(u, rows, subject, tokenExpiresAt, now, maxSeconds)
    {
      r := ResolveMerchant(u, rows, subject);
      match r
      case Refused(_) => End();
      case Ok(m) => Start(rows, m, subject, tokenExpiresAt, now, maxSeconds);
    }

    /** `get_merchant`: everything the door established is established again, and a
        session whose ground has moved is ended. */
    method GetMerchant(u: Unicode, rows: Rows, now: int) returns (merchant: Option<nat>)
      modifies this
      ensures merchant == Opens(u, rows, old(session), now)
      ensures session == if merchant.Some? then old(session) else None
    {
      if session.None? {
        return None;
      }
      var s := session.value;
      if s.expiresAt != 0 && now >= s.expiresAt {
        End();
        return None;
      }
      var resolved := ResolveMerchant(u, rows, s.subject);
      if resolved.Refused? {
        End();
        return None;
      }
      if resolved.value != s.merchant || rows.merchants[resolved.value].user != Some(s.user) {
        End();
        return None;
      }
      return Some(resolved.value);
    }
  }

  function Entered(u: Unicode, rows: Rows, subject: string, tokenExpiresAt: Option<int>, now: int, maxSeconds: int)
    : Option<Session>
  {
    match ResolveMerchant(u, rows, subject)
    case Refused(_) => None
    case Ok(m) => Some(Session(m, rows.merchants[m].user.value, subject, Expiry(now, maxSeconds, tokenExpiresAt)))
  }

  // ----------------------------------------------------------------- runs --

  /** How the current session came about. */
  datatype Ticket = Ticket(issuedAt: int, tokenExpiresAt: Option<int>, subject: string, merchant: nat)

  datatype World = World(rows: Rows, session: Option<Session>, ticket: Option<Ticket>)

  /** Everything that can happen between two clicks. */
  datatype Event =
    | PostToken(subject: string, tokenExpiresAt: Option<int>)
    | Click
    | Logout
    | RegisterMerchant(isActive: bool)
    | SetMerchantActive(merchant: nat, isActive: bool)
    | SetArchived(merchant: nat, isArchived: bool)
    | SetIdentifier(merchant: nat, raw: string)
    | Relink(merchant: nat, user: Option<nat>)
    | CreateLogin(login: Login)
    | SetLogin(id: nat, login: Login)

  predicate Taken(merchants: seq<PanelMerchant>, except: nat, id: string) {
    exists m :: 0 <= m < |merchants| && m != except && merchants[m].b2coreId == Some(id)
  }

  function ChangeRows(u: Unicode, rows: Rows, e: Event): Rows {
    match e
    case RegisterMerchant(isActive) => rows.(merchants := rows.merchants + [PanelMerchant(None, isActive, false, None)])
    case CreateLogin(login) => rows.(logins := rows.logins + [login])
    case SetLogin(id, login) => if id < |rows.logins| then rows.(logins := rows.logins[id := login]) else rows
    case SetMerchantActive(m, isActive) =>
      if m < |rows.merchants| then rows.(merchants := rows.merchants[m := rows.merchants[m].(isActive := isActive)])
            else rows
    case SetArchived(m, isArchived) =>
      if m < |rows.merchants| then rows.(merchants := rows.merchants[m := rows.merchants[m].(isArchived := isArchived)])
            else rows
    case Relink(m, user) =>
      if m < |rows.merchants| then rows.(merchants := rows.merchants[m := rows.merchants[m].(user := user)]) else rows
    case SetIdentifier(m, raw) =>
      // the unique constraint refuses an identifier another merchant holds
      var id := NormaliseId(u, raw);
      if m >= |rows.merchants| || (id.Some? && Taken(rows.merchants, m, id.value)) then rows
      else rows.(merchants := rows.merchants[m := rows.merchants[m].(b2coreId := id)])
    case _ => rows
  }

  function Next(u: Unicode, maxSeconds: int, w: World, e: Event, now: int): World {
    match e
    case PostToken(subject, tokenExpiresAt) =>
      var session := Entered(u, w.rows, subject, tokenExpiresAt, now, maxSeconds);
      World(w.rows, session,
            if session.None? then None else Some(Ticket(now, tokenExpiresAt, subject, session.value.merchant)))
    case Click => if Opens(u, w.rows, w.session, now).Some? then w else w.(session := None, ticket := None)
    case Logout => w.(session := None, ticket := None)
    case _ => w.(rows := ChangeRows(u, w.rows, e))
  }

  datatype Timed = Timed(event: Event, now: int)

  function Run(u: Unicode, maxSeconds: int, w: World, events: seq<Timed>): World {
    if events == [] then w
    else
      var t := events[|events| - 1];
      Next(u, maxSeconds, Run(u, maxSeconds, w, events[..|events| - 1]), t.event, t.now)
  }

  /** What every reachable world satisfies: identifiers are unique, and the session
      is the one its ticket bought, no longer-lived than either limit. */
  ghost predicate Inv(maxSeconds: int, w: World) {
    && (forall m, n ::
          0 <= m < n < |w.rows.merchants| && w.rows.merchants[m].b2coreId.Some? ==>
            w.rows.merchants[m].b2coreId != w.rows.merchants[n].b2coreId)
    && (w.session.Some? <==> w.ticket.Some?)
    && (w.session.Some? ==>
          && w.session.value.expiresAt == Expiry(w.ticket.value.issuedAt, maxSeconds, w.ticket.value.tokenExpiresAt)
          && w.session.value.expiresAt != 0
          && w.session.value.subject == w.ticket.value.subject
          && w.session.value.merchant == w.ticket.value.merchant)
  }

  lemma NextKeepsInv(u: Unicode, maxSeconds: int, w: World, e: Event, now: int)
    requires 0 <= maxSeconds && 0 < now && Inv(maxSeconds, w)
    ensures Inv(maxSeconds, Next(u, maxSeconds, w, e, now))
  {
  }

  lemma {:induction false} RunKeepsInv(u: Unicode, maxSeconds: int, w: World, events: seq<Timed>)
    requires 0 <= maxSeconds && Inv(maxSeconds, w)
    requires forall i :: 0 <= i < |events| ==> 0 < events[i].now
    ensures Inv(maxSeconds, Run(u, maxSeconds, w, events))
  {
    if events != [] {
      var init, t := events[..|events| - 1], events[|events| - 1];
      RunKeepsInv(u, maxSeconds, w, init);
      NextKeepsInv(u, maxSeconds, Run(u, maxSeconds, w, init), t.event, t.now);
    }
  }

  lemma {:induction false} FirstHolderHolds(merchants: seq<PanelMerchant>, id: string)
    ensures FirstHolder(merchants, id).Some? ==>
              FirstHolder(merchants, id).value < |merchants|
                    && merchants[FirstHolder(merchants, id).value].b2coreId == Some(id)
    ensures FirstHolder(merchants, id).None? ==> forall m :: 0 <= m < |merchants| ==> merchants[m].b2coreId != Some(id)
  {
    if merchants != [] {
      FirstHolderHolds(merchants[..|merchants| - 1], id);
    }
  }

  /** What a click that opens merchant m's panel proves about the world right now. */
  ghost predicate Entitled(u: Unicode, maxSeconds: int, w: World, now: int, m: nat) {
    && m < |w.rows.merchants| && w.session.Some? && w.ticket.Some?
    && var merchant, id, t := w.rows.merchants[m], Strip(u, w.ticket.value.subject), w.ticket.value;
    && merchant.isActive && !merchant.isArchived
    && id != "" && merchant.b2coreId == Some(id)
    && (forall n :: 0 <= n < |w.rows.merchants| && w.rows.merchants[n].b2coreId == Some(id) ==> n == m)
    && merchant.user == Some(w.session.value.user) && WorkingLogin(w.rows, merchant.user)
    && t.merchant == m
    && now < t.issuedAt + maxSeconds
    && (t.tokenExpiresAt.Some? && t.tokenExpiresAt.value != 0 ==> now < t.tokenExpiresAt.value)
  }

  /** After any interleaving of events, a click opens a panel only for the one
      merchant entitled to it at that instant, and only within both time limits. */
  lemma ClickIsEntitled(u: Unicode, maxSeconds: int, start: World, events: seq<Timed>, now: int)
    requires 0 <= maxSeconds && Inv(maxSeconds, start)
    requires forall i :: 0 <= i < |events| ==> 0 < events[i].now
    ensures var w := Run(u, maxSeconds, start, events);
      Opens(u, w.rows, w.session, now).Some? ==> Entitled(u, maxSeconds, w, now, Opens(u, w.rows, w.session, now).value)
  {
    RunKeepsInv(u, maxSeconds, start, events);
    var w := Run(u, maxSeconds, start, events);
    if Opens(u, w.rows, w.session, now).Some? {
      FirstHolderHolds(w.rows.merchants, Strip(u, w.session.value.subject));
    }
  }

  /** And conversely: the entitled merchant's click is never turned away. */
  lemma EntitledClickOpens(u: Unicode, maxSeconds: int, w: World, now: int, m: nat)
    requires Inv(maxSeconds, w) && Entitled(u, maxSeconds, w, now, m)
    ensures Opens(u, w.rows, w.session, now) == Some(m)
  {
    FirstHolderHolds(w.rows.merchants, Strip(u, w.session.value.subject));
  }

  /** Once there is no session, nothing but a token makes one: not reactivation,
      not restoring the identifier or the login, not time. */
  lemma {:induction false} OnlyATokenRestores(u: Unicode, maxSeconds: int, w: World, events: seq<Timed>)
    requires w.session.None? && w.ticket.None?
    requires forall i :: 0 <= i < |events| ==> !events[i].event.PostToken?
    ensures Run(u, maxSeconds, w, events).session.None?
  {
    if events != [] {
      OnlyATokenRestores(u, maxSeconds, w, events[..|events| - 1]);
    }
  }

  /** A click that finds the ground moved ends access for good: whatever is put
      back afterwards, every later click is refused until a fresh token is posted. */
  lemma MovedGroundEndsAccess(u: Unicode, maxSeconds: int, w: World, now: int, after: seq<Timed>, later: int)
    requires Opens(u, w.rows, w.session, now).None?
    requires forall i :: 0 <= i < |after| ==> !after[i].event.PostToken?
    ensures var end := Run(u, maxSeconds, Next(u, maxSeconds, w, Click, now), after);
      Opens(u, end.rows, end.session, later).None?
  {
    OnlyATokenRestores(u, maxSeconds, Next(u, maxSeconds, w, Click, now), after);
  }

  /** An active, unarchived merchant holding this identifier, with a working login. */
  predicate AtWork(rows: Rows, id: string, m: nat) {
    && m < |rows.merchants| && rows.merchants[m].b2coreId == Some(id)
    && rows.merchants[m].isActive && !rows.merchants[m].isArchived
    && rows.merchants[m].user.Some? && rows.merchants[m].user.value < |rows.logins|
    && rows.logins[rows.merchants[m].user.value].isActive
    && rows.logins[rows.merchants[m].user.value].role == "merchant"
  }

  /** A posted token opens a merchant's panel exactly when that merchant is at work under
      the verified subject and neither limit has passed; and says why when it is refused. */
  lemma TokenOpensIff(u: Unicode, maxSeconds: int, w: World, subject: string, tokenExpiresAt: Option<int>, now: int,
                      later: int, m: nat)
    requires Inv(maxSeconds, w) && 0 <= maxSeconds && 0 < now <= later
    ensures var after := Next(u, maxSeconds, w, PostToken(subject, tokenExpiresAt), now);
      && after.rows == w.rows
      && (Opens(u, after.rows, after.session, later) == Some(m) <==>
            && Strip(u, subject) != "" && AtWork(w.rows, Strip(u, subject), m)
            && later < now + maxSeconds
            && (tokenExpiresAt.Some? && tokenExpiresAt.value != 0 ==> later < tokenExpiresAt.value))
  {
    FirstHolderHolds(w.rows.merchants, Strip(u, subject));
  }

  /** The door's refusals, each with its ground; a blank subject is nobody's. */
  lemma WhyTheDoorRefuses(u: Unicode, maxSeconds: int, w: World, subject: string, m: nat)
    requires Inv(maxSeconds, w)
    requires m < |w.rows.merchants| && Strip(u, subject) != ""
          && w.rows.merchants[m].b2coreId == Some(Strip(u, subject))
    ensures ResolveMerchant(u, w.rows, subject) ==
            if w.rows.merchants[m].isArchived then Refused(MerchantArchived)
            else if !w.rows.merchants[m].isActive then Refused(MerchantSuspended)
            else if !AtWork(w.rows, Strip(u, subject), m) then Refused(NoLoginAccount)
            else Ok(m)
  {
    FirstHolderHolds(w.rows.merchants, Strip(u, subject));
  }

  lemma NobodysSubject(u: Unicode, rows: Rows, subject: string)
    ensures ResolveMerchant(u, rows, subject) == Refused(NotAMerchant) <==>
            Strip(u, subject) == ""
            || forall m :: 0 <= m < |rows.merchants| ==> rows.merchants[m].b2coreId != Some(Strip(u, subject))
  {
    FirstHolderHolds(rows.merchants, Strip(u, subject));
  }

  /** Setting an identifier: stripped, absent when nothing is left of it, and refused when
      some other merchant holds it; a merchant may be given the one it has. */
  lemma IdentifierIsSet(u: Unicode, rows: Rows, m: nat, raw: string)
    requires m < |rows.merchants|
    ensures var id, after := Strip(u, raw), ChangeRows(u, rows, SetIdentifier(m, raw));
      var taken := id != "" && exists n ::
            0 <= n < |rows.merchants| && n != m && rows.merchants[n].b2coreId == Some(id);
      && (taken ==> after == rows)
      && (!taken ==>
            && after.logins == rows.logins && |after.merchants| == |rows.merchants|
            && after.merchants[m] == rows.merchants[m].(b2coreId := if id == "" then None else Some(id))
            && forall n :: 0 <= n < |rows.merchants| && n != m ==> after.merchants[n] == rows.merchants[n])
  {
  }
}
