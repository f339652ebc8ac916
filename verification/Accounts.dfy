/** Internal accounts: the role matrix, per-user overrides, and who may change them. */
module Accounts {
  import opened Basics

  const FINANCE_ADMIN := "finance_admin"
  const FINANCE_STAFF := "finance_staff"
  const MERCHANT := "merchant"

  /** The roles in the order the matrix lists them. */
  const ROLES: seq<string> := [FINANCE_ADMIN, FINANCE_STAFF, MERCHANT]
  const ROLE_NAMES: set<string> := {FINANCE_ADMIN, FINANCE_STAFF, MERCHANT}
  const FINANCE_ROLES: set<string> := {FINANCE_ADMIN, FINANCE_STAFF}

  const MANAGE_USERS := "accounts.manage_internal_users"
  const MANAGE_PERMISSIONS := "accounts.manage_permissions"

  /** The permission labels that exist, and what the matrix says about them. */
  datatype Matrix = Matrix(
    rows: set<string>,        // every Permission row
    managed: set<string>,     // those of the managed apps
    otp: set<string>,
    globalDeny: set<string>,
    staff: set<string>,
    merchant: set<string>,
    forbidden: set<string>)   // what a merchant must never hold

  datatype Account = Account(
    role: string,
    isActive: bool,
    isSuperuser: bool,
    linkedToMerchant: bool,
    groups: set<string>,
    granted: set<string>,
    denied: set<string>)

  datatype Entry =
    | UserChange(target: nat, before: Option<Account>, after: Account)
    | PermissionChange(target: nat, granted: set<string>, denied: set<string>)

  datatype Directory = Directory(accounts: seq<Account>, groups: map<string, set<string>>, audit: seq<Entry>)

  datatype AccountError = SelfTarget | MerchantLinked | Contradiction | MerchantAnonymity | InvalidRole | NotFound

  // --------------------------------------------------------------- matrix --

  function ExpectedPermissions(mx: Matrix, role: string): set<string> {
    (if role == FINANCE_ADMIN then mx.managed + mx.otp
     else if role == FINANCE_STAFF then mx.staff
     else if role == MERCHANT then mx.merchant
     else {}) - mx.globalDeny
  }

  /** What each role is expected to hold, label by label, the denied ones never. */
  lemma ExpectedIff(mx: Matrix, role: string, perm: string)
    ensures perm in ExpectedPermissions(mx, role) <==>
      && perm !in mx.globalDeny
      && ((role == "finance_admin" && (perm in mx.managed || perm in mx.otp))
          || (role == "finance_staff" && perm in mx.staff)
          || (role == "merchant" && perm in mx.merchant))
  {
    assert "finance_admin"[8] != "finance_staff"[8] && "finance_admin"[0] != "merchant"[0]
          && "finance_staff"[0] != "merchant"[0];
  }

  datatype SyncOutcome = Synced | Skipped | MatrixError

  /** Where the loop over the roles stops, with the groups written so far. */
  function SyncFrom(mx: Matrix, groups: map<string, set<string>>, i: nat, strict: bool)
    : (SyncOutcome, map<string, set<string>>)
    requires i <= |ROLES|
    decreases |ROLES| - i
  {
    if i == |ROLES| then (Synced, groups)
    else
      var labels := ExpectedPermissions(mx, ROLES[i]);
      if ROLES[i] == MERCHANT && labels * mx.forbidden != {} then (MatrixError, groups)
      else if labels - mx.rows != {} then (if strict then MatrixError else Skipped, groups)
      else SyncFrom(mx, groups[ROLES[i] := labels], i + 1, strict)
  }

  /** An error rolls the transaction back; an early return commits what was written. */
  function SyncRoleGroups(mx: Matrix, groups: map<string, set<string>>, strict: bool)
    : (SyncOutcome, map<string, set<string>>)
  {
    var (outcome, written) := SyncFrom(mx, groups, 0, strict);
    (outcome, if outcome.MatrixError? then groups else written)
  }

  predicate AtBaseline(mx: Matrix, groups: map<string, set<string>>) {
    forall i :: 0 <= i < |ROLES| ==> ROLES[i] in groups && groups[ROLES[i]] == ExpectedPermissions(mx, ROLES[i])
  }

  /** Only the role groups are written, and each write is that role's baseline. */
  lemma {:induction false} SyncWritesBaselines(mx: Matrix, groups: map<string, set<string>>, i: nat, strict: bool)
    requires i <= |ROLES|
    ensures var written := SyncFrom(mx, groups, i, strict).1;
      && groups.Keys <= written.Keys
      && (forall g :: g in written && !(g in groups && written[g] == groups[g]) ==>
            g in ROLE_NAMES && written[g] == ExpectedPermissions(mx, g))
      && (SyncFrom(mx, groups, i, strict).0.Synced? ==>
            forall k :: i <= k < |ROLES| ==>
                  ROLES[k] in written && written[ROLES[k]] == ExpectedPermissions(mx, ROLES[k]))
    decreases |ROLES| - i
  {
    if i < |ROLES| {
      var labels := ExpectedPermissions(mx, ROLES[i]);
      if !(ROLES[i] == MERCHANT && labels * mx.forbidden != {}) && labels - mx.rows == {} {
        SyncWritesBaselines(mx, groups[ROLES[i] := labels], i + 1, strict);
        SyncLeavesEarlier(mx, groups[ROLES[i] := labels], i + 1, strict, i);
      }
    }
  }

  lemma {:induction false} SyncLeavesEarlier(mx: Matrix, groups: map<string, set<string>>, i: nat, strict: bool, k: nat)
    requires k < i <= |ROLES| && ROLES[k] in groups
    ensures ROLES[k] in SyncFrom(mx, groups, i, strict).1
          && SyncFrom(mx, groups, i, strict).1[ROLES[k]] == groups[ROLES[k]]
    decreases |ROLES| - i
  {
    if i < |ROLES| {
      assert ROLES[k] != ROLES[i];
      SyncLeavesEarlier(mx, groups[ROLES[i] := ExpectedPermissions(mx, ROLES[i])], i + 1, strict, k);
    }
  }

  /** A completed sync puts every role at its baseline, touches no other group, and
      never builds a merchant group that can identify a client. */
  lemma SyncedMeansBaseline(mx: Matrix, groups: map<string, set<string>>, strict: bool)
    requires SyncRoleGroups(mx, groups, strict).0.Synced?
    ensures AtBaseline(mx, SyncRoleGroups(mx, groups, strict).1)
    ensures SyncRoleGroups(mx, groups, strict).1[MERCHANT] * mx.forbidden == {}
    ensures forall g :: g in groups && g !in ROLE_NAMES ==>
              g in SyncRoleGroups(mx, groups, strict).1 && SyncRoleGroups(mx, groups, strict).1[g] == groups[g]
  {
    SyncWritesBaselines(mx, groups, 0, strict);
    assert ROLES[2] == MERCHANT;
  }

  /** When a sync completes: every label of every role exists, and no forbidden one is
      the merchants'.  When it does not, strictly, nothing at all is written. */
  lemma SyncCompletesIff(mx: Matrix, groups: map<string, set<string>>, strict: bool)
    ensures SyncRoleGroups(mx, groups, strict).0.Synced? <==>
      && (forall k, p :: 0 <= k < |ROLES| && p in ExpectedPermissions(mx, ROLES[k]) ==> p in mx.rows)
      && (forall p :: p in ExpectedPermissions(mx, MERCHANT) ==> p !in mx.forbidden)
    ensures SyncRoleGroups(mx, groups, true).0.Synced? || SyncRoleGroups(mx, groups, true) == (MatrixError, groups)
  {
    assert ROLES[0] == FINANCE_ADMIN && ROLES[1] == FINANCE_STAFF && ROLES[2] == MERCHANT;
    SyncGoesOnIff(mx, groups, 0, strict);
    SyncGoesOnIff(mx, groups, 0, true);
    hide ExpectedPermissions, SyncFrom;
    assert ExpectedPermissions(mx, MERCHANT) * mx.forbidden == {} <==>
           forall p :: p in ExpectedPermissions(mx, MERCHANT) ==> p !in mx.forbidden by {
      if p :| p in ExpectedPermissions(mx, MERCHANT) && p in mx.forbidden {
        assert p in ExpectedPermissions(mx, MERCHANT) * mx.forbidden;
      }
    }
  }

  lemma {:induction false} SyncGoesOnIff(mx: Matrix, groups: map<string, set<string>>, i: nat, strict: bool)
    requires i <= |ROLES|
    ensures SyncFrom(mx, groups, i, strict).0.Synced? <==>
            forall k :: i <= k < |ROLES| ==>
              Complete(mx, k) && (ROLES[k] == MERCHANT ==> ExpectedPermissions(mx, MERCHANT) * mx.forbidden == {})
    ensures strict ==> !SyncFrom(mx, groups, i, strict).0.Skipped?
    decreases |ROLES| - i
  {
    if i < |ROLES| {
      var labels := ExpectedPermissions(mx, ROLES[i]);
      hide ExpectedPermissions;
      assert Complete(mx, i) <==> labels - mx.rows == {} by {
        if p :| p in labels && p !in mx.rows {
          assert p in labels - mx.rows;
        }
      }
      SyncGoesOnIff(mx, groups[ROLES[i] := labels], i + 1, strict);
    }
  }

  /** The roles whose permissions all exist, up to the first one whose do not. */
  predicate Complete(mx: Matrix, k: nat)
    requires k < |ROLES|
  {
    ExpectedPermissions(mx, ROLES[k]) <= mx.rows
  }

  /** A lenient sync that reports nothing done has still reset the roles listed
      before the incomplete one: it changes nothing exactly when they were at their
      baseline already. */
  lemma SkippedIsANoOpIff(mx: Matrix, groups: map<string, set<string>>)
    requires SyncRoleGroups(mx, groups, false).0.Skipped?
    ensures SyncRoleGroups(mx, groups, false).1 == groups
      <==> forall k :: 0 <= k < |ROLES| && (forall j :: 0 <= j <= k ==> Complete(mx, j)) ==>
             ROLES[k] in groups && groups[ROLES[k]] == ExpectedPermissions(mx, ROLES[k])
  {
    assert ROLES[0] == FINANCE_ADMIN && ROLES[1] == FINANCE_STAFF && ROLES[2] == MERCHANT;
    forall k | 0 <= k < |ROLES|
      ensures Complete(mx, k) <==> ExpectedPermissions(mx, ROLES[k]) - mx.rows == {}
    {
      var wanted := ExpectedPermissions(mx, ROLES[k]);
      assert forall p :: p in wanted && p !in mx.rows ==> p in wanted - mx.rows;
    }
    var g1 := groups[ROLES[0] := ExpectedPermissions(mx, ROLES[0])];
    var g2 := g1[ROLES[1] := ExpectedPermissions(mx, ROLES[1])];
    assert Complete(mx, 0) && Complete(mx, 1) ==> !Complete(mx, 2);
    var written := SyncRoleGroups(mx, groups, false).1;
    assert SyncFrom(mx, groups, 0, false) == if Complete(mx, 0) then SyncFrom(mx, g1, 1, false) else (Skipped, groups);
    if Complete(mx, 0) {
      assert SyncFrom(mx, g1, 1, false) == if Complete(mx, 1) then SyncFrom(mx, g2, 2, false) else (Skipped, g1);
      assert written[ROLES[0]] == ExpectedPermissions(mx, ROLES[0]);
      if Complete(mx, 1) {
        assert written == g2 && written[ROLES[1]] == ExpectedPermissions(mx, ROLES[1]);
      }
    }
  }

  /** Such a lenient sync does write: here it creates the administrators' group. */
  lemma SkippedCanStillWrite()
    ensures exists mx :: SyncRoleGroups(mx, map[], false) == (Skipped, map[FINANCE_ADMIN := {"a"}])
  {
    var mx := Matrix({"a"}, {"a"}, {}, {}, {"b"}, {}, {});
    var empty: map<string, set<string>> := map[];
    assert "b" in ExpectedPermissions(mx, FINANCE_STAFF) - mx.rows;
    assert ExpectedPermissions(mx, FINANCE_ADMIN) == {"a"};
    assert SyncFrom(mx, empty, 0, false) == SyncFrom(mx, empty[FINANCE_ADMIN := {"a"}], 1, false);
    assert SyncRoleGroups(mx, empty, false) == (Skipped, map[FINANCE_ADMIN := {"a"}]);
  }

  // ---------------------------------------------------------- enforcement --

  /** Everything the groups an account belongs to grant. */
  function GroupPermissions(groups: map<string, set<string>>, memberships: set<string>): set<string> {
    set g, p | g in memberships && g in groups && p in groups[g] :: p
  }

  /** `get_all_permissions` on a fresh instance: everything granted, minus refusals. */
  function BackendPermissions(mx: Matrix, groups: map<string, set<string>>, a: Account): set<string> {
    if !a.isActive then {}
    else (if a.isSuperuser then mx.rows else a.granted + GroupPermissions(groups, a.groups)) - a.denied
  }

  predicate HasPerm(mx: Matrix, groups: map<string, set<string>>, a: Account, perm: string) {
    a.isActive && (a.isSuperuser || perm in BackendPermissions(mx, groups, a))
  }

  /** `effective_permissions`: what the panel shows the account as holding. */
  function EffectivePermissions(mx: Matrix, a: Account): set<string> {
    (if a.role in ROLE_NAMES then ExpectedPermissions(mx, a.role) else {}) + a.granted - a.denied
  }

  /** The post_save signal: role groups mirror the role, every other group survives. */
  function MirrorRole(groupNames: set<string>, role: string, memberships: set<string>): set<string> {
    if role in groupNames then (memberships - (ROLE_NAMES - {role})) + {role} else memberships - ROLE_NAMES
  }

  /** Group by group: a save adds the role's own group where it exists, takes away the
      other roles', and leaves every other membership. */
  lemma MirrorIff(groupNames: set<string>, role: string, memberships: set<string>, g: string)
    ensures g in MirrorRole(groupNames, role, memberships) <==>
            (g in memberships && g !in ROLE_NAMES) || (g == role && role in groupNames)
  {
  }

  predicate InSync(groups: map<string, set<string>>, a: Account) {
    a.role in ROLE_NAMES && a.groups * ROLE_NAMES == {a.role} && ROLE_NAMES <= groups.Keys
  }

  /** The panel and the backend agree about an active ordinary account exactly when
      its extra groups add nothing it does not hold or is not refused anyway. */
  lemma ViewAgreesIff(mx: Matrix, groups: map<string, set<string>>, a: Account)
    requires AtBaseline(mx, groups) && InSync(groups, a)
    requires a.isActive && !a.isSuperuser
    ensures EffectivePermissions(mx, a) == BackendPermissions(mx, groups, a)
      <==> GroupPermissions(groups, a.groups - ROLE_NAMES) - a.denied <= EffectivePermissions(mx, a)
  {
    BaselineOf(mx, groups, a.role);
    var extra, all := GroupPermissions(groups, a.groups - ROLE_NAMES), GroupPermissions(groups, a.groups);
    forall p
      ensures p in all <==> p in extra || p in ExpectedPermissions(mx, a.role)
    {
      if p in all {
        var g :| g in a.groups && g in groups && p in groups[g];
        assert g in ROLE_NAMES ==> g in a.groups * ROLE_NAMES;
      }
      if p in ExpectedPermissions(mx, a.role) {
        assert a.role in a.groups * ROLE_NAMES;
      }
    }
    assert BackendPermissions(mx, groups, a) == (a.granted + extra + ExpectedPermissions(mx, a.role)) - a.denied;
  }

  lemma BaselineOf(mx: Matrix, groups: map<string, set<string>>, role: string)
    requires AtBaseline(mx, groups) && role in ROLE_NAMES
    ensures role in groups && groups[role] == ExpectedPermissions(mx, role)
  {
    assert ROLES[0] == FINANCE_ADMIN && ROLES[1] == FINANCE_STAFF && ROLES[2] == MERCHANT;
  }

  /** What `assert_merchant_anonymity` raises on. */
  predicate BreaksAnonymity(mx: Matrix, groups: map<string, set<string>>, a: Account) {
    a.role == MERCHANT && exists perm :: perm in mx.forbidden && HasPerm(mx, groups, a, perm)
  }

  /** With the groups synced, an ordinary merchant account without extra groups
      identifies a client exactly when a forbidden label was granted to it personally
      and not refused: the group never contributes one. */
  lemma AnonymityBrokenIff(mx: Matrix, groups: map<string, set<string>>, a: Account)
    requires AtBaseline(mx, groups) && InSync(groups, a) && ExpectedPermissions(mx, MERCHANT) * mx.forbidden == {}
    requires a.role == MERCHANT && a.isActive && !a.isSuperuser && a.groups <= ROLE_NAMES
    ensures BreaksAnonymity(mx, groups, a) <==> (a.granted - a.denied) * mx.forbidden != {}
  {
    ViewAgreesIff(mx, groups, a);
    assert a.groups - ROLE_NAMES == {};
    assert GroupPermissions(groups, a.groups - ROLE_NAMES) == {};
    if BreaksAnonymity(mx, groups, a) {
      var perm :| perm in mx.forbidden && HasPerm(mx, groups, a, perm);
      assert perm in EffectivePermissions(mx, a);
      assert perm in ExpectedPermissions(mx, MERCHANT) ==> perm in ExpectedPermissions(mx, MERCHANT) * mx.forbidden;
      assert perm in (a.granted - a.denied) * mx.forbidden;
    }
    if (a.granted - a.denied) * mx.forbidden != {} {
      var perm :| perm in (a.granted - a.denied) * mx.forbidden;
      assert HasPerm(mx, groups, a, perm);
    }
  }

  // ----------------------------------------------------------- operations --

  function Saved(groups: map<string, set<string>>, a: Account): Account {
    a.(groups := MirrorRole(groups.Keys, a.role, a.groups))
  }

  function CreateAccount(d: Directory, role: string): Result<Directory, AccountError> {
    if role !in ROLE_NAMES then Refused(InvalidRole)
    else
      var a := Saved(d.groups, Account(role, true, false, false, {}, {}, {}));
      Ok(d.(accounts := d.accounts + [a], audit := d.audit + [UserChange(|d.accounts|, None, a)]))
  }

  function UpdateAccount(d: Directory, actor: nat, target: nat, role: string): Result<Directory, AccountError> {
    if target >= |d.accounts| then Refused(NotFound)
    else if role !in ROLE_NAMES then Refused(InvalidRole)
    else
      var a := d.accounts[target];
      if role != a.role && actor == target then Refused(SelfTarget)
      else if role != a.role && a.role == MERCHANT && a.linkedToMerchant then Refused(MerchantLinked)
      else
        var b := Saved(d.groups, a.(role := role));
        Ok(d.(accounts := d.accounts[target := b], audit := d.audit + [UserChange(target, Some(a), b)]))
  }

  function SetActive(d: Directory, actor: nat, target: nat, active: bool): Result<Directory, AccountError> {
    if target >= |d.accounts| then Refused(NotFound)
    else if !active && actor == target then Refused(SelfTarget)
    else
      var a := d.accounts[target];
      var b := Saved(d.groups, a.(isActive := active));
      Ok(d.(accounts := d.accounts[target := b], audit := d.audit + [UserChange(target, Some(a), b)]))
  }

  function SetPermissionOverrides(mx: Matrix, d: Directory, actor: nat, target: nat,
                                  granted: set<string>, denied: set<string>)
    : Result<Directory, AccountError>
  {
    if target >= |d.accounts| then Refused(NotFound)
    else if actor == target then Refused(SelfTarget)
    else if granted * denied != {} then Refused(Contradiction)
    else if d.accounts[target].role == MERCHANT && granted * mx.forbidden != {} then Refused(MerchantAnonymity)
    else
      var b := d.accounts[target].(granted := granted * mx.rows, denied := denied * mx.rows);
      Ok(d.(accounts := d.accounts[target := b], audit := d.audit + [PermissionChange(target, granted, denied)]))
  }

  datatype Operation =
    | Create(role: string)
    | Update(target: nat, role: string)
    | Activate(target: nat, active: bool)
    | Override(target: nat, granted: set<string>, denied: set<string>)

  function Required(op: Operation): string {
    if op.Override? then MANAGE_PERMISSIONS else MANAGE_USERS
  }

  /** The panel lets an operation through: a finance account, active, with the permission. */
  predicate Permitted(mx: Matrix, d: Directory, actor: nat, op: Operation) {
    && actor < |d.accounts|
    && (d.accounts[actor].role in FINANCE_ROLES || d.accounts[actor].isSuperuser)
    && HasPerm(mx, d.groups, d.accounts[actor], Required(op))
  }

  function Attempt(mx: Matrix, d: Directory, actor: nat, op: Operation): Result<Directory, AccountError> {
    match op
    case Create(role) => CreateAccount(d, role)
    case Update(target, role) => UpdateAccount(d, actor, target, role)
    case Activate(target, active) => SetActive(d, actor, target, active)
    case Override(target, granted, denied) => SetPermissionOverrides(mx, d, actor, target, granted, denied)
  }

  function Perform(mx: Matrix, d: Directory, actor: nat, op: Operation): Directory {
    if !Permitted(mx, d, actor, op) then d
    else
      match Attempt(mx, d, actor, op)
      case Ok(after) => after
      case Refused(_) => d
  }

  /** The accounts, groups and log as the panel's operations change them. */
  class Panel {
    var accounts: seq<Account>
    var groups: map<string, set<string>>
    var audit: seq<Entry>

    function View(): Directory
      reads this
    {
      Directory(accounts, groups, audit)
    }

    constructor (groups: map<string, set<string>>)
      ensures View() == Directory([], groups, [])
    {
      this.accounts, this.groups, this.audit := [], groups, [];
    }

    /** `user.save()`: write the row, then let the signal move it between role groups. */
    method Save(i: nat, row: Account) returns (saved: Account)
      requires i <= |accounts|
      modifies this`accounts
      ensures saved == Saved(groups, row)
      ensures accounts == if i < |old(accounts)| then old(accounts)[i := saved] else old(accounts) + [saved]
    {
      var current := row.groups * ROLE_NAMES;
      var stale := if row.role in groups then current - {row.role} else current;
      var memberships := row.groups - stale;
      if row.role in groups && row.role !in memberships {
        memberships := memberships + {row.role};
      }
      assert memberships == MirrorRole(groups.Keys, row.role, row.groups);
      saved := row.(groups := memberships);
      if i < |accounts| {
        accounts := accounts[i := saved];
      } else {
        accounts := accounts + [saved];
      }
    }

    method Create(role: string) returns (r: Result<nat, AccountError>)
      modifies this
      ensures r.Ok? ==> CreateAccount(old(View()), role) == Ok(View()) && r.value == |old(accounts)|
      ensures r.Refused? ==> CreateAccount(old(View()), role) == Refused(r.error) && View() == old(View())
    {
      if role !in ROLE_NAMES {
        return Refused(InvalidRole);
      }
      var id := |accounts|;
      var saved := Save(id, Account(role, true, false, false, {}, {}, {}));
      audit := audit + [UserChange(id, None, saved)];
      return Ok(id);
    }

    method Update(actor: nat, target: nat, role: string) returns (r: Result<(), AccountError>)
      modifies this
      ensures r.Ok? ==> UpdateAccount(old(View()), actor, target, role) == Ok(View())
      ensures r.Refused? ==>
            UpdateAccount(old(View()), actor, target, role) == Refused(r.error) && View() == old(View())
    {
      if target >= |accounts| {
        return Refused(NotFound);
      }
      if role !in ROLE_NAMES {
        return Refused(InvalidRole);
      }
      var before := accounts[target];
      if role != before.role {
        if actor == target {
          return Refused(SelfTarget);
        }
        if before.role == MERCHANT && before.linkedToMerchant {
          return Refused(MerchantLinked);
        }
      }
      var saved := Save(target, before.(role := role));
      audit := audit + [UserChange(target, Some(before), saved)];
      return Ok(());
    }

    method SetActiveFlag(actor: nat, target: nat, active: bool) returns (r: Result<(), AccountError>)
      modifies this
      ensures r.Ok? ==> SetActive(old(View()), actor, target, active) == Ok(View())
      ensures r.Refused? ==> SetActive(old(View()), actor, target, active) == Refused(r.error) && View() == old(View())
    {
      if target >= |accounts| {
        return Refused(NotFound);
      }
      if !active && actor == target {
        return Refused(SelfTarget);
      }
      var before := accounts[target];
      var saved := Save(target, before.(isActive := active));
      audit := audit + [UserChange(target, Some(before), saved)];
      return Ok(());
    }

    method SetOverrides(mx: Matrix, actor: nat, target: nat, granted: set<string>, denied: set<string>)
      returns (r: Result<(), AccountError>)
      modifies this
      ensures r.Ok? ==> SetPermissionOverrides(mx, old(View()), actor, target, granted, denied) == Ok(View())
      ensures r.Refused? ==>
                SetPermissionOverrides(mx, old(View()), actor, target, granted, denied) == Refused(r.error)
                      && View() == old(View())
    {
      if target >= |accounts| {
        return Refused(NotFound);
      }
      if actor == target {
        return Refused(SelfTarget);
      }
      if granted * denied != {} {
        return Refused(Contradiction);
      }
      if accounts[target].role == MERCHANT && granted * mx.forbidden != {} {
        return Refused(MerchantAnonymity);
      }
      accounts := accounts[target := accounts[target].(granted := granted * mx.rows)];
      accounts := accounts[target := accounts[target].(denied := denied * mx.rows)];
      assert accounts
            == old(accounts)[target := old(accounts)[target].(granted := granted * mx.rows,
                                                              denied := denied * mx.rows)];
      audit := audit + [PermissionChange(target, granted, denied)];
      return Ok(());
    }

    /** `sync_role_groups`, one role at a time inside a transaction. */
    method SyncGroups(mx: Matrix, strict: bool) returns (outcome: SyncOutcome)
      modifies this`groups
      ensures (outcome, groups) == SyncRoleGroups(mx, old(groups), strict)
    {
      var savepoint := groups;
      for i := 0 to |ROLES|
        invariant SyncFrom(mx, old(groups), 0, strict) == SyncFrom(mx, groups, i, strict)
        invariant savepoint == old(groups)
      {
        var labels := ExpectedPermissions(mx, ROLES[i]);
        if ROLES[i] == MERCHANT && labels * mx.forbidden != {} {
          groups := savepoint;
          return MatrixError;
        }
        if labels - mx.rows != {} {
          if !strict {
            return Skipped;
          }
          groups := savepoint;
          return MatrixError;
        }
        groups := groups[ROLES[i] := labels];
      }
      return Synced;
    }
  }

  // ----------------------------------------------------------------- runs --

  datatype Event = ByPanel(actor: nat, op: Operation) | Sync(strict: bool) | Resave(target: nat)

  function Next(mx: Matrix, d: Directory, e: Event): Directory {
    match e
    case ByPanel(actor, op) => Perform(mx, d, actor, op)
    case Sync(strict) => d.(groups := SyncRoleGroups(mx, d.groups, strict).1)
    case Resave(i) => if i < |d.accounts| then d.(accounts := d.accounts[i := Saved(d.groups, d.accounts[i])]) else d
  }

  function Run(mx: Matrix, d: Directory, events: seq<Event>): Directory {
    if events == [] then d
    else Next(mx, Run(mx, d, events[..|events| - 1]), events[|events| - 1])
  }

  ghost predicate Inv(mx: Matrix, d: Directory) {
    AtBaseline(mx, d.groups) && forall i :: 0 <= i < |d.accounts| ==> InSync(d.groups, d.accounts[i])
  }

  lemma SyncKeepsBaseline(mx: Matrix, groups: map<string, set<string>>, strict: bool)
    requires AtBaseline(mx, groups)
    ensures SyncRoleGroups(mx, groups, strict).1 == groups
  {
    SyncWritesBaselines(mx, groups, 0, strict);
    var written := SyncFrom(mx, groups, 0, strict).1;
    forall g | g in written
      ensures g in groups && written[g] == groups[g]
    {
      if !(g in groups && written[g] == groups[g]) {
        BaselineOf(mx, groups, g);
      }
    }
    assert written.Keys == groups.Keys;
  }

  lemma MirrorMirrors(groups: map<string, set<string>>, a: Account)
    requires a.role in ROLE_NAMES && ROLE_NAMES <= groups.Keys
    ensures InSync(groups, Saved(groups, a))
    ensures Saved(groups, a).groups - ROLE_NAMES == a.groups - ROLE_NAMES
    ensures InSync(groups, a) ==> Saved(groups, a) == a
  {
    var b := Saved(groups, a);
    assert b.groups * ROLE_NAMES == {a.role};
    if InSync(groups, a) {
      assert a.role in a.groups * ROLE_NAMES;
      assert forall g :: g in a.groups && g in ROLE_NAMES ==> g in a.groups * ROLE_NAMES;
      assert b.groups == a.groups;
    }
  }

  lemma NextKeepsInv(mx: Matrix, d: Directory, e: Event)
    requires Inv(mx, d)
    ensures Inv(mx, Next(mx, d, e))
    ensures |d.accounts| <= |Next(mx, d, e).accounts|
    ensures forall i :: 0 <= i < |d.accounts| ==>
              Next(mx, d, e).accounts[i].groups - ROLE_NAMES == d.accounts[i].groups - ROLE_NAMES
  {
    BaselineOf(mx, d.groups, FINANCE_ADMIN);
    BaselineOf(mx, d.groups, FINANCE_STAFF);
    BaselineOf(mx, d.groups, MERCHANT);
    match e
    case Sync(strict) => SyncKeepsBaseline(mx, d.groups, strict);
    case Resave(i) => if i < |d.accounts| { MirrorMirrors(d.groups, d.accounts[i]); }
    case ByPanel(actor, op) =>
      match op {
        case Create(role) =>
          if role in ROLE_NAMES { MirrorMirrors(d.groups, Account(role, true, false, false, {}, {}, {})); }
        case Update(i, role) =>
          if i < |d.accounts| && role in ROLE_NAMES { MirrorMirrors(d.groups, d.accounts[i].(role := role)); }
        case Activate(i, active) =>
          if i < |d.accounts| { MirrorMirrors(d.groups, d.accounts[i].(isActive := active)); }
        case Override(_, _, _) =>
      }
  }

  /** Over any run, an account's role groups are exactly its role's group and every
      other membership it had is untouched. */
  lemma {:induction false} MembershipFollowsRole(mx: Matrix, d: Directory, events: seq<Event>)
    requires Inv(mx, d)
    ensures Inv(mx, Run(mx, d, events))
    ensures |d.accounts| <= |Run(mx, d, events).accounts|
    ensures forall i :: 0 <= i < |d.accounts| ==>
              Run(mx, d, events).accounts[i].groups - ROLE_NAMES == d.accounts[i].groups - ROLE_NAMES
  {
    if events != [] {
      var init := events[..|events| - 1];
      MembershipFollowsRole(mx, d, init);
      NextKeepsInv(mx, Run(mx, d, init), events[|events| - 1]);
    }
  }

  /** After any run, what the panel shows is what the backend enforces for every
      active ordinary account that was given no extra group. */
  lemma ViewAgreesAfterAnyRun(mx: Matrix, d: Directory, events: seq<Event>, i: nat)
    requires Inv(mx, d)
    requires i < |Run(mx, d, events).accounts|
    requires var a := Run(mx, d, events).accounts[i];
      a.isActive && !a.isSuperuser && a.groups <= ROLE_NAMES
    ensures var after := Run(mx, d, events);
      EffectivePermissions(mx, after.accounts[i]) == BackendPermissions(mx, after.groups, after.accounts[i])
  {
    MembershipFollowsRole(mx, d, events);
    var after := Run(mx, d, events);
    ViewAgreesIff(mx, after.groups, after.accounts[i]);
    assert after.accounts[i].groups - ROLE_NAMES == {};
    assert GroupPermissions(after.groups, {}) == {};
  }

  /** A refused label stays refused, whatever the role and the groups become, until
      that account's overrides are replaced. */
  lemma {:induction false} RefusalHolds(mx: Matrix, d: Directory, events: seq<Event>, i: nat, perm: string)
    requires i < |d.accounts| && perm in d.accounts[i].denied
    requires forall k :: 0 <= k < |events| && events[k].ByPanel? && events[k].op.Override? ==> events[k].op.target != i
    ensures i < |Run(mx, d, events).accounts|
    ensures perm in Run(mx, d, events).accounts[i].denied
    ensures perm !in BackendPermissions(mx, Run(mx, d, events).groups, Run(mx, d, events).accounts[i])
  {
    if events != [] {
      RefusalHolds(mx, d, events[..|events| - 1], i, perm);
    }
  }

  // ------------------------------------------------------- administration --

  predicate MayAdminister(mx: Matrix, d: Directory, i: nat)
    requires i < |d.accounts|
  {
    var a := d.accounts[i];
    && (a.role in FINANCE_ROLES || a.isSuperuser)
    && (HasPerm(mx, d.groups, a, MANAGE_USERS) || HasPerm(mx, d.groups, a, MANAGE_PERMISSIONS))
  }

  predicate Administrable(mx: Matrix, d: Directory) {
    exists i :: 0 <= i < |d.accounts| && MayAdminister(mx, d, i)
  }

  /** An operation that is carried out leaves its actor's own account exactly as it was. */
  lemma ActorIsUntouched(mx: Matrix, d: Directory, actor: nat, op: Operation)
    requires Inv(mx, d) && Permitted(mx, d, actor, op) && Attempt(mx, d, actor, op).Ok?
    ensures actor < |Perform(mx, d, actor, op).accounts|
    ensures Perform(mx, d, actor, op).accounts[actor] == d.accounts[actor]
    ensures Perform(mx, d, actor, op).groups == d.groups
  {
    BaselineOf(mx, d.groups, FINANCE_ADMIN);
    BaselineOf(mx, d.groups, FINANCE_STAFF);
    BaselineOf(mx, d.groups, MERCHANT);
    MirrorMirrors(d.groups, d.accounts[actor]);
  }

  /** No run of panel operations, saves and syncs leaves nobody able to administer. */
  lemma {:induction false} NeverLockedOut(mx: Matrix, d: Directory, events: seq<Event>)
    requires Inv(mx, d) && Administrable(mx, d)
    ensures Administrable(mx, Run(mx, d, events))
  {
    if events != [] {
      var init, e := events[..|events| - 1], events[|events| - 1];
      NeverLockedOut(mx, d, init);
      MembershipFollowsRole(mx, d, init);
      StepKeepsAdministration(mx, Run(mx, d, init), e);
    }
  }

  lemma StepKeepsAdministration(mx: Matrix, d: Directory, e: Event)
    requires Inv(mx, d) && Administrable(mx, d)
    ensures Administrable(mx, Next(mx, d, e))
  {
    var i :| 0 <= i < |d.accounts| && MayAdminister(mx, d, i);
    match e
    case Sync(strict) =>
      SyncKeepsBaseline(mx, d.groups, strict);
      assert MayAdminister(mx, Next(mx, d, e), i);
    case Resave(k) =>
      if k < |d.accounts| { MirrorMirrors(d.groups, d.accounts[k]); }
      assert MayAdminister(mx, Next(mx, d, e), i);
    case ByPanel(actor, op) =>
      if Permitted(mx, d, actor, op) && Attempt(mx, d, actor, op).Ok? {
        ActorIsUntouched(mx, d, actor, op);
        assert MayAdminister(mx, Next(mx, d, e), actor);
      } else {
        assert MayAdminister(mx, Next(mx, d, e), i);
      }
  }

  // --------------------------------------------------------------- granting --

  /** Who can change permissions, a stronger question than who can administer. */
  predicate CanGrant(mx: Matrix, d: Directory, i: nat)
    requires i < |d.accounts|
  {
    (d.accounts[i].role in FINANCE_ROLES || d.accounts[i].isSuperuser)
          && HasPerm(mx, d.groups, d.accounts[i], MANAGE_PERMISSIONS)
  }

  /** Somebody other than account `but` can; `but` may be no account at all. */
  predicate SomeoneElseGrants(mx: Matrix, d: Directory, but: nat) {
    exists j :: 0 <= j < |d.accounts| && j != but && CanGrant(mx, d, j)
  }

  predicate SomeoneGrants(mx: Matrix, d: Directory) {
    exists j :: 0 <= j < |d.accounts| && CanGrant(mx, d, j)
  }

  lemma GranterKeepsGranting(mx: Matrix, d: Directory, actor: nat, op: Operation)
    requires Inv(mx, d) && actor < |d.accounts| && CanGrant(mx, d, actor)
    ensures actor < |Perform(mx, d, actor, op).accounts| && CanGrant(mx, Perform(mx, d, actor, op), actor)
  {
    if Permitted(mx, d, actor, op) && Attempt(mx, d, actor, op).Ok? {
      ActorIsUntouched(mx, d, actor, op);
    }
  }

  /** The account an operation writes: the next one for a creation. */
  function Written(d: Directory, op: Operation): nat {
    if op.Create? then |d.accounts| else op.target
  }

  /** Whether an account with this standing can grant, its role's group being in place. */
  predicate StandingGrants(mx: Matrix, groups: map<string, set<string>>, role: string, a: Account) {
    a.isSuperuser
    || (role in FINANCE_ROLES
        && MANAGE_PERMISSIONS !in a.denied
        && MANAGE_PERMISSIONS in a.granted + GroupPermissions(groups, a.groups - ROLE_NAMES)
              + ExpectedPermissions(mx, role))
  }

  /** Whether the account an operation writes will be able to grant, read off the
      account as it is and the operation. */
  predicate WrittenWillGrant(mx: Matrix, d: Directory, op: Operation)
    requires op.Create? || op.target < |d.accounts|
  {
    match op
    case Create(role) => role in FINANCE_ROLES && MANAGE_PERMISSIONS in ExpectedPermissions(mx, role)
    case Update(t, role) => d.accounts[t].isActive && StandingGrants(mx, d.groups, role, d.accounts[t])
    case Activate(t, active) => active && StandingGrants(mx, d.groups, d.accounts[t].role, d.accounts[t])
    case Override(t, granted, denied) =>
      d.accounts[t].isActive
      && StandingGrants(mx, d.groups, d.accounts[t].role,
                        d.accounts[t].(granted := granted * mx.rows, denied := denied * mx.rows))
  }

  /** What an account in step with its role's group can grant by. */
  lemma CanGrantIff(mx: Matrix, d: Directory, i: nat)
    requires AtBaseline(mx, d.groups) && i < |d.accounts| && InSync(d.groups, d.accounts[i])
    ensures CanGrant(mx, d, i)
          <==> d.accounts[i].isActive && StandingGrants(mx, d.groups, d.accounts[i].role, d.accounts[i])
  {
    var a, groups := d.accounts[i], d.groups;
    BaselineOf(mx, groups, a.role);
    forall p
      ensures p in GroupPermissions(groups, a.groups) <==>
              p in GroupPermissions(groups, a.groups - ROLE_NAMES) || p in ExpectedPermissions(mx, a.role)
    {
      if p in GroupPermissions(groups, a.groups) {
        var g :| g in a.groups && g in groups && p in groups[g];
        assert g in ROLE_NAMES ==> g in a.groups * ROLE_NAMES;
      }
      if p in ExpectedPermissions(mx, a.role) {
        assert a.role in a.groups * ROLE_NAMES;
      }
    }
  }

  /** The account an operation wrote, as it now stands. */
  lemma WrittenGrantsIff(mx: Matrix, d: Directory, actor: nat, op: Operation)
    requires Inv(mx, d) && Attempt(mx, d, actor, op).Ok?
    ensures var after := Attempt(mx, d, actor, op).value;
      && (op.Create? || op.target < |d.accounts|)
      && Inv(mx, after) && after.groups == d.groups
      && |after.accounts| == (if op.Create? then |d.accounts| + 1 else |d.accounts|)
      && (CanGrant(mx, after, Written(d, op)) <==> WrittenWillGrant(mx, d, op))
  {
    var after, t := Attempt(mx, d, actor, op).value, Written(d, op);
    BaselineOf(mx, d.groups, FINANCE_ADMIN);
    BaselineOf(mx, d.groups, FINANCE_STAFF);
    BaselineOf(mx, d.groups, MERCHANT);
    var row := match op
      case Create(role) => Account(role, true, false, false, {}, {}, {})
      case Update(_, role) => d.accounts[t].(role := role)
      case Activate(_, active) => d.accounts[t].(isActive := active)
      case Override(_, granted, denied) => d.accounts[t].(granted := granted * mx.rows, denied := denied * mx.rows);
    MirrorMirrors(d.groups, row);
    hide MirrorRole, GroupPermissions, ExpectedPermissions;
    assert after.accounts[t] == Saved(d.groups, row);
    CanGrantIff(mx, after, t);
    assert op.Create? ==> GroupPermissions(d.groups, {}) == {} by {
      NoGroupsGrantNothing(d.groups);
    }
  }

  lemma NoGroupsGrantNothing(groups: map<string, set<string>>)
    ensures GroupPermissions(groups, {}) == {}
  {
  }

  /** Exactly when an operation that is carried out leaves somebody able to grant:
      somebody it does not write can, or the account it writes will. */
  lemma GranterRemainsIff(mx: Matrix, d: Directory, actor: nat, op: Operation)
    requires Inv(mx, d) && Permitted(mx, d, actor, op) && Attempt(mx, d, actor, op).Ok?
    ensures op.Create? || op.target < |d.accounts|
    ensures SomeoneGrants(mx, Perform(mx, d, actor, op))
          <==> SomeoneElseGrants(mx, d, Written(d, op)) || WrittenWillGrant(mx, d, op)
  {
    var after, t := Perform(mx, d, actor, op), Written(d, op);
    WrittenGrantsIff(mx, d, actor, op);
    OperationsAreLogged(mx, d, actor, op);
    assert forall j :: 0 <= j < |d.accounts| && j != t ==> after.accounts[j] == d.accounts[j];
    hide HasPerm, WrittenWillGrant, Attempt, Permitted, Inv;
    if j :| 0 <= j < |d.accounts| && j != t && CanGrant(mx, d, j) {
      assert CanGrant(mx, after, j);
    }
    if WrittenWillGrant(mx, d, op) {
      assert CanGrant(mx, after, t);
    }
    if j :| 0 <= j < |after.accounts| && CanGrant(mx, after, j) {
      assert j != t ==> CanGrant(mx, d, j);
    }
  }

  /** Disabling leaves a granter exactly when another account can grant, and replacing
      overrides always does: its actor is one. */
  lemma DisablingLeavesAGranterIff(mx: Matrix, d: Directory, actor: nat, op: Operation)
    requires Inv(mx, d) && Permitted(mx, d, actor, op) && Attempt(mx, d, actor, op).Ok?
    ensures op.Activate? && !op.active ==>
          (SomeoneGrants(mx, Perform(mx, d, actor, op)) <==> SomeoneElseGrants(mx, d, op.target))
    ensures op.Override? ==> SomeoneGrants(mx, Perform(mx, d, actor, op))
  {
    GranterRemainsIff(mx, d, actor, op);
    if op.Override? {
      assert CanGrant(mx, d, actor);
    }
  }

  /** Every disabling and re-role of this run that is carried out is by somebody who
      can grant at that moment. */
  ghost predicate GrantersDecide(mx: Matrix, d: Directory, events: seq<Event>) {
    forall k :: 0 <= k < |events| ==> GranterDecides(mx, Run(mx, d, events[..k]), events[k])
  }

  predicate GranterDecides(mx: Matrix, d: Directory, e: Event) {
    e.ByPanel? && (e.op.Update? || (e.op.Activate? && !e.op.active)) && Permitted(mx, d, e.actor, e.op) ==>
          CanGrant(mx, d, e.actor)
  }

  /** Such a run never loses its last granter. */
  lemma {:induction false} GrantingSurvives(mx: Matrix, d: Directory, events: seq<Event>)
    requires Inv(mx, d) && SomeoneGrants(mx, d) && GrantersDecide(mx, d, events)
    ensures SomeoneGrants(mx, Run(mx, d, events))
  {
    if events != [] {
      var init, e := events[..|events| - 1], events[|events| - 1];
      forall k | 0 <= k < |init|
        ensures GranterDecides(mx, Run(mx, d, init[..k]), init[k])
      {
        assert events[..k] == init[..k] && events[k] == init[k];
        assert GranterDecides(mx, Run(mx, d, events[..k]), events[k]);
      }
      GrantingSurvives(mx, d, init);
      MembershipFollowsRole(mx, d, init);
      assert GranterDecides(mx, Run(mx, d, events[..|init|]), events[|init|]);
      StepKeepsAGranter(mx, Run(mx, d, init), e);
    }
  }

  lemma StepKeepsAGranter(mx: Matrix, d: Directory, e: Event)
    requires Inv(mx, d) && SomeoneGrants(mx, d) && GranterDecides(mx, d, e)
    ensures SomeoneGrants(mx, Next(mx, d, e))
  {
    var i :| 0 <= i < |d.accounts| && CanGrant(mx, d, i);
    match e
    case Sync(strict) =>
      SyncKeepsBaseline(mx, d.groups, strict);
      assert CanGrant(mx, Next(mx, d, e), i);
    case Resave(k) =>
      if k < |d.accounts| { MirrorMirrors(d.groups, d.accounts[k]); }
      assert CanGrant(mx, Next(mx, d, e), i);
    case ByPanel(actor, op) =>
      if !Permitted(mx, d, actor, op) || Attempt(mx, d, actor, op).Refused? {
        assert Next(mx, d, e) == d;
      } else if op.Create? || (op.Activate? && op.active) {
        GranterRemainsIff(mx, d, actor, op);
        CanGrantIff(mx, d, i);
      } else {
        assert CanGrant(mx, d, actor);
        GranterKeepsGranting(mx, d, actor, op);
      }
  }

  /** Without that it can: one who administers users without being able to grant may
      disable the only one who can. */
  lemma LastGranterCanBeDisabled()
    ensures exists mx, d ::
      && Inv(mx, d) && |d.accounts| == 2 && CanGrant(mx, d, 0)
      && Permitted(mx, d, 1, Activate(0, false))
      && var after := Perform(mx, d, 1, Activate(0, false));
         |after.accounts| == 2 && !CanGrant(mx, after, 0) && !CanGrant(mx, after, 1)
  {
    var both := {MANAGE_USERS, MANAGE_PERMISSIONS};
    var mx := Matrix(both, both, {}, {}, {}, {}, {});
    var groups := map[FINANCE_ADMIN := both, FINANCE_STAFF := {}, MERCHANT := {}];
    var admin := Account(FINANCE_ADMIN, true, false, false, {FINANCE_ADMIN}, {}, {});
    var staff := Account(FINANCE_STAFF, true, false, false, {FINANCE_STAFF}, {MANAGE_USERS}, {});
    var d := Directory([admin, staff], groups, []);
    assert AtBaseline(mx, groups);
    assert InSync(groups, admin) && InSync(groups, staff);
    assert MANAGE_PERMISSIONS in groups[FINANCE_ADMIN];
    assert MANAGE_PERMISSIONS in GroupPermissions(groups, admin.groups);
    assert CanGrant(mx, d, 0);
    assert Permitted(mx, d, 1, Activate(0, false));
    MirrorMirrors(groups, admin.(isActive := false));
    var after := Perform(mx, d, 1, Activate(0, false));
    assert MANAGE_USERS != MANAGE_PERMISSIONS by {
      assert MANAGE_USERS[16] != MANAGE_PERMISSIONS[16];
    }
    assert after.accounts[1] == staff;
    assert MANAGE_PERMISSIONS !in GroupPermissions(groups, staff.groups);
    assert !CanGrant(mx, after, 0) && !CanGrant(mx, after, 1);
  }

  // --------------------------------------------------------------- anonymity --

  /** How an attempt to replace overrides is answered: whose account it is, then the two
      sets against each other, then a merchant's account against the forbidden labels. */
  lemma OverrideRefusals(mx: Matrix, d: Directory, actor: nat, target: nat, granted: set<string>, denied: set<string>)
    requires target < |d.accounts| && actor != target
    ensures var r := Attempt(mx, d, actor, Override(target, granted, denied));
      && (r == Refused(Contradiction) <==> exists p :: p in granted && p in denied)
      && (r == Refused(MerchantAnonymity) <==>
            && (forall p :: p in granted ==> p !in denied)
            && d.accounts[target].role == MERCHANT && exists p :: p in granted && p in mx.forbidden)
      && (r.Ok? <==> r != Refused(Contradiction) && r != Refused(MerchantAnonymity))
      && (r.Refused? ==> Perform(mx, d, actor, Override(target, granted, denied)) == d)
  {
    assert granted * denied == {} <==> forall p :: p in granted ==> p !in denied by {
      if p :| p in granted && p in denied {
        assert p in granted * denied;
      }
    }
    assert granted * mx.forbidden == {} <==> forall p :: p in granted ==> p !in mx.forbidden by {
      if p :| p in granted && p in mx.forbidden {
        assert p in granted * mx.forbidden;
      }
    }
  }

  /** Of an account that is there: nobody re-roles themselves, an account linked to a
      merchant's record keeps its role, and otherwise the role alone is changed, with the
      group that goes with it. */
  lemma UpdateRefusals(mx: Matrix, d: Directory, actor: nat, target: nat, role: string)
    requires target < |d.accounts| && role in ROLE_NAMES
    ensures var a, r := d.accounts[target], Attempt(mx, d, actor, Update(target, role));
      && (r == Refused(SelfTarget) <==> role != a.role && actor == target)
      && (r == Refused(MerchantLinked) <==>
            role != a.role && actor != target && a.role == MERCHANT && a.linkedToMerchant)
      && (r.Ok? <==> r != Refused(SelfTarget) && r != Refused(MerchantLinked))
      && (r.Ok? ==>
            var b := r.value.accounts[target];
            b == a.(role := role, groups := b.groups) && b.groups == MirrorRole(d.groups.Keys, role, a.groups))
  {
    hide MirrorRole;
  }

  /** Nobody disables themselves, and otherwise the switch is set as asked; a new account
      is active, in its role, and holds nothing of its own. */
  lemma SwitchingAndCreating(mx: Matrix, d: Directory, actor: nat, target: nat, active: bool, role: string)
    requires target < |d.accounts|
    ensures var a, r := d.accounts[target], Attempt(mx, d, actor, Activate(target, active));
      && (r.Refused? <==> !active && actor == target)
      && (r.Ok? ==> r.value.accounts[target] == a.(isActive := active, groups := r.value.accounts[target].groups))
    ensures var r := Attempt(mx, d, actor, Create(role));
      && (r.Refused? <==> role !in ROLE_NAMES)
      && (r.Ok? ==>
            var b := r.value.accounts[|d.accounts|];
            b == Account(role, true, false, false, MirrorRole(d.groups.Keys, role, {}), {}, {}))
  {
    hide MirrorRole;
  }

  /** A merchant's account was personally granted something that identifies a client. */
  predicate Leaks(mx: Matrix, a: Account) {
    a.role == MERCHANT && exists p :: p in a.granted && p in mx.forbidden
  }

  ghost predicate NoMerchantLeaks(mx: Matrix, d: Directory) {
    forall i :: 0 <= i < |d.accounts| ==> !Leaks(mx, d.accounts[i])
  }

  /** The one way round the guard: an account that was granted such a label in another
      role is made a merchant's. */
  predicate ReRolesALeak(mx: Matrix, d: Directory, op: Operation) {
    && op.Update? && op.role == MERCHANT && op.target < |d.accounts|
    && exists p :: p in d.accounts[op.target].granted && p in mx.forbidden
  }

  /** Exactly when an operation carried out among clean accounts leaves one that is not. */
  lemma StaysCleanIff(mx: Matrix, d: Directory, actor: nat, op: Operation)
    requires NoMerchantLeaks(mx, d) && Attempt(mx, d, actor, op).Ok?
    ensures NoMerchantLeaks(mx, Attempt(mx, d, actor, op).value) <==> !ReRolesALeak(mx, d, op)
  {
    var after, t := Attempt(mx, d, actor, op).value, Written(d, op);
    OperationsAreLogged(mx, d, actor, op);
    assert forall j :: 0 <= j < |d.accounts| && j != t ==> after.accounts[j] == d.accounts[j];
    assert !op.Create? ==> !Leaks(mx, d.accounts[t]);
    if op.Override? {
      OverrideGrantsNoLeak(mx, d, actor, op);
    }
    assert Leaks(mx, after.accounts[t]) <==> ReRolesALeak(mx, d, op);
  }

  lemma OverrideGrantsNoLeak(mx: Matrix, d: Directory, actor: nat, op: Operation)
    requires op.Override? && Attempt(mx, d, actor, op).Ok?
    ensures !Leaks(mx, Attempt(mx, d, actor, op).value.accounts[op.target])
  {
    if p :| p in op.granted && p in mx.forbidden {
      assert p in op.granted * mx.forbidden;
    }
  }

  /** No event of the run is such a re-role, carried out. */
  ghost predicate NeverReRolesALeak(mx: Matrix, d: Directory, events: seq<Event>) {
    forall k :: 0 <= k < |events| ==> LeavesClean(mx, Run(mx, d, events[..k]), events[k])
  }

  predicate LeavesClean(mx: Matrix, d: Directory, e: Event) {
    e.ByPanel? && Permitted(mx, d, e.actor, e.op) && Attempt(mx, d, e.actor, e.op).Ok? ==> !ReRolesALeak(mx, d, e.op)
  }

  lemma StepStaysClean(mx: Matrix, d: Directory, e: Event)
    requires NoMerchantLeaks(mx, d) && LeavesClean(mx, d, e)
    ensures NoMerchantLeaks(mx, Next(mx, d, e))
  {
    if e.ByPanel? {
      if Permitted(mx, d, e.actor, e.op) && Attempt(mx, d, e.actor, e.op).Ok? {
        StaysCleanIff(mx, d, e.actor, e.op);
      }
      hide Permitted, Attempt, NoMerchantLeaks;
    } else {
      assert forall i :: 0 <= i < |d.accounts| ==> !Leaks(mx, d.accounts[i]);
    }
  }

  lemma {:induction false} RunStaysClean(mx: Matrix, d: Directory, events: seq<Event>)
    requires NoMerchantLeaks(mx, d) && NeverReRolesALeak(mx, d, events)
    ensures NoMerchantLeaks(mx, Run(mx, d, events))
  {
    if events != [] {
      var init, e := events[..|events| - 1], events[|events| - 1];
      forall k | 0 <= k < |init|
        ensures LeavesClean(mx, Run(mx, d, init[..k]), init[k])
      {
        assert events[..k] == init[..k] && events[k] == init[k];
        assert LeavesClean(mx, Run(mx, d, events[..k]), events[k]);
      }
      RunStaysClean(mx, d, init);
      assert LeavesClean(mx, Run(mx, d, events[..|init|]), events[|init|]);
      StepStaysClean(mx, Run(mx, d, init), e);
    }
  }

  /** Over any run from a clean, synced start without such a re-role, no ordinary
      merchant's account without extra groups can identify a client. */
  lemma MerchantsStayAnonymous(mx: Matrix, d: Directory, events: seq<Event>, i: nat)
    requires Inv(mx, d) && ExpectedPermissions(mx, MERCHANT) * mx.forbidden == {}
    requires NoMerchantLeaks(mx, d) && NeverReRolesALeak(mx, d, events)
    requires i < |Run(mx, d, events).accounts|
    requires var a := Run(mx, d, events).accounts[i]; !a.isSuperuser && a.groups <= ROLE_NAMES
    ensures !BreaksAnonymity(mx, Run(mx, d, events).groups, Run(mx, d, events).accounts[i])
  {
    RunStaysClean(mx, d, events);
    MembershipFollowsRole(mx, d, events);
    var after := Run(mx, d, events);
    var a := after.accounts[i];
    hide Run, NeverReRolesALeak, ExpectedPermissions;
    if a.role == MERCHANT && a.isActive {
      AnonymityBrokenIff(mx, after.groups, a);
      assert !Leaks(mx, a);
    }
  }

  /** The re-role itself is let through: a staff account that was granted a forbidden
      label is made a merchant's, and identifies clients from then on. */
  lemma ReRoleCanLeak()
    ensures exists mx, d ::
      && Inv(mx, d) && NoMerchantLeaks(mx, d) && ExpectedPermissions(mx, MERCHANT) * mx.forbidden == {}
      && |d.accounts| == 2 && Permitted(mx, d, 0, Update(1, MERCHANT)) && Attempt(mx, d, 0, Update(1, MERCHANT)).Ok?
      && var after := Perform(mx, d, 0, Update(1, MERCHANT));
         |after.accounts| == 2 && BreaksAnonymity(mx, after.groups, after.accounts[1])
  {
    var mx := Matrix({MANAGE_USERS, "x"}, {MANAGE_USERS}, {}, {}, {}, {}, {"x"});
    var groups := map[FINANCE_ADMIN := {MANAGE_USERS}, FINANCE_STAFF := {}, MERCHANT := {}];
    var admin := Account(FINANCE_ADMIN, true, false, false, {FINANCE_ADMIN}, {}, {});
    var staff := Account(FINANCE_STAFF, true, false, false, {FINANCE_STAFF}, {"x"}, {});
    var d := Directory([admin, staff], groups, []);
    assert AtBaseline(mx, groups);
    assert InSync(groups, admin) && InSync(groups, staff);
    assert MANAGE_USERS in groups[FINANCE_ADMIN];
    assert MANAGE_USERS in GroupPermissions(groups, admin.groups);
    MirrorMirrors(groups, staff.(role := MERCHANT));
    var after := Perform(mx, d, 0, Update(1, MERCHANT));
    assert after.accounts[1] == Saved(groups, staff.(role := MERCHANT));
    assert "x" in mx.forbidden && HasPerm(mx, groups, after.accounts[1], "x");
  }

  /** Every operation that is carried out is in the log, once, against its target,
      and changes no other account. */
  lemma OperationsAreLogged(mx: Matrix, d: Directory, actor: nat, op: Operation)
    requires Attempt(mx, d, actor, op).Ok?
    ensures var after := Attempt(mx, d, actor, op).value;
      && after.groups == d.groups
      && |after.audit| == |d.audit| + 1 && after.audit[..|d.audit|] == d.audit
      && var e := after.audit[|d.audit|];
      && e.target == (if op.Create? then |d.accounts| else op.target)
      && e.target < |after.accounts|
      && (e.UserChange? ==>
            e.after == after.accounts[e.target]
            && e.before == if op.Create? then None else Some(d.accounts[e.target]))
      && (e.PermissionChange? ==>
            after.accounts[e.target].granted == e.granted * mx.rows
                  && after.accounts[e.target].denied == e.denied * mx.rows)
      && (forall i :: 0 <= i < |d.accounts| && i != e.target ==> after.accounts[i] == d.accounts[i])
  {
  }
}
