/**
 Who may see and do what: the permission checks as functions of the access
 tables, and the user-management actions as steps on those tables.
 */
module Access {
  import opened Wrappers

  type UserId = string
  type InstanceId = nat

  datatype User = User(isSuperuser: bool, isStaff: bool, isActive: bool)

  datatype Role = ReadOnly | Operator

  datatype Grant = Grant(role: Role, canManageNotifications: bool)

  datatype SlotAccess = SlotAccess(canDrop: bool, canTerminate: bool)

  /** `scopes` holds the accounts under explicit access control, with their
      global-notification flag. */
  datatype Tables = Tables(users: map<UserId, User>, grants: map<(UserId, InstanceId), Grant>,
                           scopes: map<UserId, bool>, slots: map<UserId, SlotAccess>)

  // ---- permissions.py ----

  datatype EffectiveRole = Administrator | Granted(role: Role)

  predicate HasGrants(t: Tables, u: UserId) { exists k | k in t.grants :: k.0 == u }

  /** Neither a scope nor any grant: an account from before per-instance access. */
  predicate Legacy(t: Tables, u: UserId) { u !in t.scopes && !HasGrants(t, u) }

  predicate SignedIn(t: Tables, u: UserId) { u in t.users && t.users[u].isActive }

  function InstanceRole(t: Tables, u: UserId, i: InstanceId): Option<EffectiveRole> {
    if !SignedIn(t, u) then None
    else if t.users[u].isSuperuser then Some(Administrator)
    else if (u, i) in t.grants then Some(Granted(t.grants[(u, i)].role))
    else if !Legacy(t, u) then None
    else Some(Granted(if t.users[u].isStaff then Operator else ReadOnly))
  }

  predicate CanView(t: Tables, u: UserId, i: InstanceId) { InstanceRole(t, u, i).Some? }

  predicate CanOperate(t: Tables, u: UserId, i: InstanceId) {
    InstanceRole(t, u, i) == Some(Administrator) || InstanceRole(t, u, i) == Some(Granted(Operator))
  }

  predicate CanManageInstanceNotifications(t: Tables, u: UserId, i: InstanceId) {
    if !SignedIn(t, u) then false
    else if t.users[u].isSuperuser then true
    else if Legacy(t, u) then t.users[u].isStaff
    else (u, i) in t.grants && t.grants[(u, i)] == Grant(Operator, true)
  }

  predicate CanManageGlobalNotifications(t: Tables, u: UserId) {
    if !(SignedIn(t, u) && t.users[u].isStaff) then false
    else if t.users[u].isSuperuser then true
    else if u !in t.scopes then true
    else t.scopes[u]
  }

  datatype SlotAction = Drop | Terminate

  predicate CanManageSlot(t: Tables, u: UserId, a: SlotAction) {
    if !(SignedIn(t, u) && t.users[u].isStaff) then false
    else if t.users[u].isSuperuser then true
    else if u !in t.slots then false
    else if a == Drop then t.slots[u].canDrop else t.slots[u].canTerminate
  }

  function AccessibleInstances(t: Tables, u: UserId, active: set<InstanceId>): set<InstanceId>
    requires u in t.users
  {
    if t.users[u].isSuperuser || Legacy(t, u) then active
    else set i | i in active && (u, i) in t.grants
  }

  predicate NoGrantIn(t: Tables, u: UserId, active: set<InstanceId>) { forall i | i in active :: (u, i) !in t.grants }

  /** The list view and the per-instance check agree on every active instance for
      active accounts. For an inactive account they agree only if there is nothing
      to list: no active instance, or none among its grants, its access being limited to them. */
  lemma ListAgreesWithCheck(t: Tables, u: UserId, active: set<InstanceId>)
    requires u in t.users
    ensures (forall i | i in active :: i in AccessibleInstances(t, u, active) <==> CanView(t, u, i)) <==>
              || t.users[u].isActive || active == {}
              || (!t.users[u].isSuperuser && !Legacy(t, u) && NoGrantIn(t, u, active))
    ensures AccessibleInstances(t, u, active) <= active
  {
    forall i | i in active && t.users[u].isActive
      ensures i in AccessibleInstances(t, u, active) <==> CanView(t, u, i)
    {
      if (u, i) in t.grants {
        assert (u, i).0 == u;
        assert HasGrants(t, u);
      }
    }
    if !t.users[u].isActive && AccessibleInstances(t, u, active) != {} {
      var i :| i in AccessibleInstances(t, u, active);
      assert !CanView(t, u, i);
    }
    if !t.users[u].isActive && AccessibleInstances(t, u, active) == {} && active != {} {
      var i :| i in active;
      assert i !in AccessibleInstances(t, u, active);
      assert forall k | k in active :: k !in AccessibleInstances(t, u, active);
    }
  }

  /** An inactive account without any access records: every active instance is
      listed for it, and none passes the check. */
  lemma InactiveAccountListed(u: UserId, i: InstanceId) returns (t: Tables)
    ensures t.users == map[u := User(false, false, false)] && Legacy(t, u)
    ensures i in AccessibleInstances(t, u, {i}) && !CanView(t, u, i)
  {
    t := Tables(map[u := User(false, false, false)], map[], map[], map[]);
  }

  /** An account without any access record from the time of per-instance access. */
  ghost predicate Untouched(t: Tables, u: UserId) { u !in t.scopes && forall j :: (u, j) !in t.grants }

  /** Who may do what on an instance, in terms of the records: administrators
      everything; others what their grant on it says; accounts without any access
      record may view every instance, and operate it and manage its webhook if staff. */
  lemma InstanceRights(t: Tables, u: UserId, i: InstanceId)
    ensures CanView(t, u, i) <==>
              u in t.users && t.users[u].isActive && (t.users[u].isSuperuser || (u, i) in t.grants || Untouched(t, u))
    ensures CanOperate(t, u, i) <==>
              u in t.users && t.users[u].isActive
              && (|| t.users[u].isSuperuser
                  || ((u, i) in t.grants && t.grants[(u, i)].role == Operator)
                  || (Untouched(t, u) && t.users[u].isStaff))
    ensures CanManageInstanceNotifications(t, u, i) <==>
              u in t.users && t.users[u].isActive
              && (|| t.users[u].isSuperuser
                  || ((u, i) in t.grants && t.grants[(u, i)].role == Operator
                      && t.grants[(u, i)].canManageNotifications)
                  || (Untouched(t, u) && t.users[u].isStaff))
  {
    LegacyMeansUntouched(t, u);
  }

  lemma LegacyMeansUntouched(t: Tables, u: UserId)
    ensures Legacy(t, u) <==> Untouched(t, u)
  {
    if HasGrants(t, u) {
      var k :| k in t.grants && k.0 == u;
      assert (u, k.1) in t.grants;
    }
    if j :| (u, j) in t.grants {
      assert (u, j).0 == u;
    }
  }

  /** Rights that are not tied to an instance need staff; administrators have them,
      others by their flags, global notifications also without a scope record. */
  lemma SharedRights(t: Tables, u: UserId)
    ensures CanManageGlobalNotifications(t, u) <==>
              u in t.users && t.users[u].isActive && t.users[u].isStaff
              && (t.users[u].isSuperuser || u !in t.scopes || t.scopes[u])
    ensures CanManageSlot(t, u, Drop) <==>
              u in t.users && t.users[u].isActive && t.users[u].isStaff
              && (t.users[u].isSuperuser || (u in t.slots && t.slots[u].canDrop))
    ensures CanManageSlot(t, u, Terminate) <==>
              u in t.users && t.users[u].isActive && t.users[u].isStaff
              && (t.users[u].isSuperuser || (u in t.slots && t.slots[u].canTerminate))
  {}

  // ---- user_management ----

  /** The posted roles: one for all instances, or one for each; anything but the two names means none. */
  datatype RoleChoice = RoleChoice(bulk: string, each: map<InstanceId, string>, notify: set<InstanceId>)

  datatype Action =
    | UpdateRole(target: UserId, role: string, globalFlag: bool)
    | UpdateSlots(target: UserId, canDrop: bool, canTerminate: bool)
    | UpdateInstances(target: UserId, active: set<InstanceId>, choice: RoleChoice)
    | CreateUser(username: UserId, passwordOk: bool, role: string, globalFlag: bool, canDrop: bool, canTerminate: bool,
                 active: set<InstanceId>, choice: RoleChoice)

  function RoleNamed(name: string): Option<Role> {
    if name == "readonly" then Some(ReadOnly) else if name == "operator" then Some(Operator) else None
  }

  function ChosenRole(c: RoleChoice, i: InstanceId): Option<Role> {
    if RoleNamed(c.bulk).Some? then RoleNamed(c.bulk)
    else if i in c.each then RoleNamed(c.each[i]) else None
  }

  /** Some instance is given the operator role. */
  predicate ChoosesOperator(c: RoleChoice, active: set<InstanceId>) {
    exists i | i in active :: ChosenRole(c, i) == Some(Operator)
  }

  function GrantsOf(u: UserId, active: set<InstanceId>, c: RoleChoice,
                    notifiable: set<InstanceId>): map<(UserId, InstanceId), Grant> {
    map i | i in active && ChosenRole(c, i).Some? :: (u, i) := Grant(ChosenRole(c, i).value, i in notifiable)
  }

  function Others(grants: map<(UserId, InstanceId), Grant>, u: UserId): map<(UserId, InstanceId), Grant> {
    map k | k in grants && k.0 != u :: grants[k]
  }

  function OperatorsIn(active: set<InstanceId>, c: RoleChoice): set<InstanceId> {
    set i | i in active && i in c.notify && ChosenRole(c, i) == Some(Operator)
  }

  predicate Allowed(t: Tables, a: Action) {
    match a
    case UpdateRole(u, role, _) => u in t.users && !t.users[u].isSuperuser && RoleNamed(role).Some?
    case UpdateSlots(u, _, _) => u in t.users && !t.users[u].isSuperuser && t.users[u].isStaff
    case UpdateInstances(u, active, c) =>
      u in t.users && !t.users[u].isSuperuser && (ChoosesOperator(c, active) ==> t.users[u].isStaff)
    case CreateUser(u, passwordOk, role, _, drop, terminate, active, c) =>
      && u != "" && passwordOk && RoleNamed(role).Some? && u !in t.users
      && (RoleNamed(role) != Some(Operator) ==> !drop && !terminate && !ChoosesOperator(c, active))
  }

  function SetRole(t: Tables, u: UserId, role: Role, globalFlag: bool): Tables
    requires u in t.users
  {
    Tables(t.users[u := t.users[u].(isStaff := role == Operator)],
           map k | k in t.grants :: if k.0 != u then t.grants[k] else
             Grant(role, role == Operator && t.grants[k].canManageNotifications),
           t.scopes[u := role == Operator && globalFlag],
           if role == ReadOnly && u in t.slots then t.slots[u := SlotAccess(false, false)] else t.slots)
  }

  function SetInstances(t: Tables, u: UserId, active: set<InstanceId>, c: RoleChoice): Tables {
    t.(grants := Others(t.grants, u) + GrantsOf(u, active, c, OperatorsIn(active, c)),
       scopes := if u in t.scopes then t.scopes else t.scopes[u := false])
  }

  function AddUser(t: Tables, u: UserId, role: Role, globalFlag: bool, slots: SlotAccess, active: set<InstanceId>,
                   c: RoleChoice): Tables {
    Tables(t.users[u := User(false, role == Operator, true)],
           t.grants + GrantsOf(u, active, c, if role == Operator then c.notify else {}),
           t.scopes[u := role == Operator && globalFlag],
           if slots.canDrop || slots.canTerminate then t.slots[u := slots] else t.slots)
  }

  /** A refused action changes nothing. */
  function Apply(t: Tables, a: Action): Tables {
    if !Allowed(t, a) then t
    else
      match a
      case UpdateRole(u, role, globalFlag) => SetRole(t, u, RoleNamed(role).value, globalFlag)
      case UpdateSlots(u, drop, terminate) => t.(slots := t.slots[u := SlotAccess(drop, terminate)])
      case UpdateInstances(u, active, c) => SetInstances(t, u, active, c)
      case CreateUser(u, _, role, globalFlag, drop, terminate, active, c) =>
        AddUser(t, u, RoleNamed(role).value, globalFlag, SlotAccess(drop, terminate), active, c)
  }

  /** Every capability in the tables belongs to an existing staff account. */
  ghost predicate CapabilitiesAreStaffs(t: Tables) {
    && (forall k | k in t.grants && (t.grants[k].role == Operator || t.grants[k].canManageNotifications) ::
          k.0 in t.users && t.users[k.0].isStaff)
    && (forall u | u in t.scopes && t.scopes[u] :: u in t.users && t.users[u].isStaff)
    && (forall u | u in t.slots && (t.slots[u].canDrop || t.slots[u].canTerminate) ::
        u in t.users && t.users[u].isStaff)
  }

  function Run(t: Tables, actions: seq<Action>): Tables {
    if actions == [] then t else Apply(Run(t, actions[..|actions| - 1]), actions[|actions| - 1])
  }

  lemma OneMoreAction(t: Tables, actions: seq<Action>, a: Action)
    ensures Run(t, []) == t && Run(t, actions + [a]) == Apply(Run(t, actions), a)
  {
    hide Apply;
    assert (actions + [a])[..|actions|] == actions;
  }

  lemma SetRoleKeepsStaffOnly(t: Tables, u: UserId, role: Role, globalFlag: bool)
    requires CapabilitiesAreStaffs(t) && u in t.users
    ensures CapabilitiesAreStaffs(SetRole(t, u, role, globalFlag))
  {}

  lemma ChosenOperator(c: RoleChoice, active: set<InstanceId>, i: InstanceId)
    requires i in active && ChosenRole(c, i) == Some(Operator)
    ensures ChoosesOperator(c, active)
  {}

  lemma SetInstancesKeepsStaffOnly(t: Tables, u: UserId, active: set<InstanceId>, c: RoleChoice)
    requires CapabilitiesAreStaffs(t) && Allowed(t, UpdateInstances(u, active, c))
    ensures CapabilitiesAreStaffs(SetInstances(t, u, active, c))
  {
    hide ChosenRole, ChoosesOperator;
    forall i | i in active && ChosenRole(c, i) == Some(Operator) ensures t.users[u].isStaff {
      ChosenOperator(c, active, i);
    }
  }

  lemma AddUserKeepsStaffOnly(t: Tables, a: Action)
    requires CapabilitiesAreStaffs(t) && a.CreateUser? && Allowed(t, a)
    ensures CapabilitiesAreStaffs(Apply(t, a))
  {
    hide ChosenRole, ChoosesOperator, RoleNamed, CapabilitiesAreStaffs;
    forall i | i in a.active && ChosenRole(a.choice, i) == Some(Operator) ensures RoleNamed(a.role) == Some(Operator) {
      ChosenOperator(a.choice, a.active, i);
    }
    NewUserKeepsStaffOnly(t, a.username, RoleNamed(a.role).value, a.globalFlag, SlotAccess(a.canDrop, a.canTerminate),
                          a.active, a.choice);
  }

  lemma NewUserKeepsStaffOnly(t: Tables, u: UserId, role: Role, globalFlag: bool, slots: SlotAccess,
                              active: set<InstanceId>, c: RoleChoice)
    requires CapabilitiesAreStaffs(t) && u !in t.users
    requires forall i | i in active && ChosenRole(c, i) == Some(Operator) :: role == Operator
    requires slots.canDrop || slots.canTerminate ==> role == Operator
    ensures CapabilitiesAreStaffs(AddUser(t, u, role, globalFlag, slots, active, c))
  {
    hide ChosenRole, GrantsOf;
    NewGrantsNeedStaff(u, active, c, role);
  }

  lemma NewGrantsNeedStaff(u: UserId, active: set<InstanceId>, c: RoleChoice, role: Role)
    requires forall i | i in active && ChosenRole(c, i) == Some(Operator) :: role == Operator
    ensures var g := GrantsOf(u, active, c, if role == Operator then c.notify else {});
            forall k | k in g :: k.0 == u && (g[k].role == Operator || g[k].canManageNotifications ==> role == Operator)
  {
    hide ChosenRole;
  }

  lemma ApplyKeepsStaffOnly(t: Tables, a: Action)
    requires CapabilitiesAreStaffs(t)
    ensures CapabilitiesAreStaffs(Apply(t, a))
  {
    hide SetRole, SetInstances, AddUser, RoleNamed, ChoosesOperator;
    if Allowed(t, a) {
      match a
      case UpdateRole(u, role, globalFlag) => SetRoleKeepsStaffOnly(t, u, RoleNamed(role).value, globalFlag);
      case UpdateSlots(_, _, _) =>
      case UpdateInstances(u, active, c) => SetInstancesKeepsStaffOnly(t, u, active, c);
      case CreateUser(_, _, _, _, _, _, _, _) => AddUserKeepsStaffOnly(t, a);
    }
  }

  /** Over every sequence of user-management actions, operator grants and the
      owner-webhook, global-notification and slot flags belong to staff accounts. */
  lemma {:induction false} CapabilitiesStayStaffs(t: Tables, actions: seq<Action>)
    requires CapabilitiesAreStaffs(t)
    ensures CapabilitiesAreStaffs(Run(t, actions))
  {
    hide Apply, CapabilitiesAreStaffs;
    if actions != [] {
      CapabilitiesStayStaffs(t, actions[..|actions| - 1]);
      ApplyKeepsStaffOnly(Run(t, actions[..|actions| - 1]), actions[|actions| - 1]);
    }
  }

  /** A downgrade takes every capability away, on every instance. */
  lemma DowngradeTakesAll(t: Tables, u: UserId, globalFlag: bool, i: InstanceId, a: SlotAction)
    requires Allowed(t, UpdateRole(u, "readonly", globalFlag))
    ensures var t1 := Apply(t, UpdateRole(u, "readonly", globalFlag));
            !CanOperate(t1, u, i) && !CanManageInstanceNotifications(t1, u, i)
            && !CanManageGlobalNotifications(t1, u) && !CanManageSlot(t1, u, a)
  {
    var t1 := Apply(t, UpdateRole(u, "readonly", globalFlag));
    assert u in t1.scopes;
  }

  /** No owner-webhook and no slot flag is left for the account, hidden or not. */
  ghost predicate FlagsOff(t: Tables, u: UserId) {
    && u in t.users && u in t.scopes
    && (forall k | k in t.grants && k.0 == u :: !t.grants[k].canManageNotifications)
    && (u in t.slots ==> t.slots[u] == SlotAccess(false, false))
  }

  /** The action sets slot or per-instance access of the account anew. */
  predicate Regrants(a: Action, u: UserId) { (a.UpdateSlots? || a.UpdateInstances?) && a.target == u }

  lemma FlagsStayOff(t: Tables, a: Action, u: UserId)
    requires FlagsOff(t, u) && !Regrants(a, u)
    ensures FlagsOff(Apply(t, a), u)
  {}

  /** Whatever role changes follow a downgrade, in between any actions on other
      accounts, owner-webhook and slot rights stay off until granted anew. */
  lemma {:induction false} UpgradeRestoresNoFlags(t: Tables, u: UserId, globalFlag: bool, later: seq<Action>)
    requires Allowed(t, UpdateRole(u, "readonly", globalFlag)) && !t.users[u].isSuperuser
    requires forall a | a in later :: !Regrants(a, u)
    ensures FlagsOff(Run(Apply(t, UpdateRole(u, "readonly", globalFlag)), later), u)
  {
    if later != [] {
      hide Apply, FlagsOff;
      var n := |later| - 1;
      assert later[n] in later && forall a | a in later[..n] :: a in later;
      UpgradeRestoresNoFlags(t, u, globalFlag, later[..n]);
      FlagsStayOff(Run(Apply(t, UpdateRole(u, "readonly", globalFlag)), later[..n]), later[n], u);
    }
  }

  lemma FlagsOffMeansNoRights(t: Tables, u: UserId, i: InstanceId, a: SlotAction)
    requires FlagsOff(t, u) && !t.users[u].isSuperuser
    ensures !CanManageInstanceNotifications(t, u, i) && !CanManageSlot(t, u, a)
  {}

  /** The role itself does come back, and for every instance the account has a
      grant on: an upgrade makes read-only grants operator grants, too. */
  lemma UpgradeMakesEveryGrantOperator(t: Tables, u: UserId, globalFlag: bool, i: InstanceId)
    requires Allowed(t, UpdateRole(u, "operator", globalFlag)) && t.users[u].isActive
    ensures var t1 := Apply(t, UpdateRole(u, "operator", globalFlag));
            CanOperate(t1, u, i) <==> (u, i) in t.grants
  {
    var t1 := Apply(t, UpdateRole(u, "operator", globalFlag));
    assert u in t1.scopes;
    assert (u, i) in t1.grants <==> (u, i) in t.grants;
  }

  // ---- what an action grants, and to whom ----

  function TargetOf(a: Action): UserId { if a.CreateUser? then a.username else a.target }

  ghost predicate SameAccount(t: Tables, t1: Tables, v: UserId) {
    && (v in t1.users <==> v in t.users) && (v in t.users ==> t1.users[v] == t.users[v])
    && (v in t1.scopes <==> v in t.scopes) && (v in t.scopes ==> t1.scopes[v] == t.scopes[v])
    && (v in t1.slots <==> v in t.slots) && (v in t.slots ==> t1.slots[v] == t.slots[v])
    && (forall i :: (v, i) in t1.grants <==> (v, i) in t.grants)
    && (forall i | (v, i) in t.grants :: t1.grants[(v, i)] == t.grants[(v, i)])
  }

  lemma ApplyLeavesOthers(t: Tables, a: Action, v: UserId)
    requires v != TargetOf(a)
    ensures SameAccount(t, Apply(t, a), v)
  {
    hide ChosenRole, ChoosesOperator, RoleNamed, OperatorsIn;
  }

  lemma SameAccountSameRights(t: Tables, t1: Tables, v: UserId, i: InstanceId, slot: SlotAction)
    requires SameAccount(t, t1, v)
    ensures InstanceRole(t1, v, i) == InstanceRole(t, v, i)
    ensures CanManageInstanceNotifications(t1, v, i) == CanManageInstanceNotifications(t, v, i)
    ensures CanManageGlobalNotifications(t1, v) == CanManageGlobalNotifications(t, v)
    ensures CanManageSlot(t1, v, slot) == CanManageSlot(t, v, slot)
  {
    if HasGrants(t, v) {
      var k :| k in t.grants && k.0 == v;
      assert (v, k.1) in t1.grants && (v, k.1).0 == v;
    }
    if HasGrants(t1, v) {
      var k :| k in t1.grants && k.0 == v;
      assert (v, k.1) in t.grants && (v, k.1).0 == v;
    }
  }

  /** An action changes the rights of the account it is about and of no other. */
  lemma OthersKeepTheirRights(t: Tables, a: Action, v: UserId, i: InstanceId, slot: SlotAction)
    requires v != TargetOf(a)
    ensures var t1 := Apply(t, a);
            && InstanceRole(t1, v, i) == InstanceRole(t, v, i)
            && CanManageInstanceNotifications(t1, v, i) == CanManageInstanceNotifications(t, v, i)
            && CanManageGlobalNotifications(t1, v) == CanManageGlobalNotifications(t, v)
            && CanManageSlot(t1, v, slot) == CanManageSlot(t, v, slot)
  {
    hide Apply, SameAccount;
    ApplyLeavesOthers(t, a, v);
    SameAccountSameRights(t, Apply(t, a), v, i, slot);
  }

  /** A permitted per-instance update gives the account exactly the chosen roles on
      the active instances, none elsewhere, and webhook rights exactly where an
      operator role was chosen together with them. */
  lemma InstanceUpdateTakesEffect(t: Tables, u: UserId, active: set<InstanceId>, c: RoleChoice, i: InstanceId)
    requires Allowed(t, UpdateInstances(u, active, c)) && t.users[u].isActive
    ensures var t1 := Apply(t, UpdateInstances(u, active, c));
            && InstanceRole(t1, u, i) ==
                 (if i in active && ChosenRole(c, i).Some? then Some(Granted(ChosenRole(c, i).value)) else None)
            && (CanManageInstanceNotifications(t1, u, i)
                <==> i in active && i in c.notify && ChosenRole(c, i) == Some(Operator))
  {
    hide ChosenRole, ChoosesOperator;
    var t1 := Apply(t, UpdateInstances(u, active, c));
    assert u in t1.scopes;
    assert (u, i) !in Others(t.grants, u);
  }

  // ---- what each action writes, and when it is refused ----

  /** What is posted for an instance: the role for all if it is one, else its own. */
  function Posted(c: RoleChoice, i: InstanceId): string {
    if c.bulk == "readonly" || c.bulk == "operator" then c.bulk else if i in c.each then c.each[i] else ""
  }

  lemma ChosenIsPosted(c: RoleChoice, i: InstanceId)
    ensures ChosenRole(c, i) == Some(Operator) <==> Posted(c, i) == "operator"
    ensures ChosenRole(c, i) == Some(ReadOnly) <==> Posted(c, i) == "readonly"
  {}

  predicate IsRole(word: string) { word == "readonly" || word == "operator" }

  lemma GrantsPosted(u: UserId, active: set<InstanceId>, c: RoleChoice, notifiable: set<InstanceId>)
    ensures var g := GrantsOf(u, active, c, notifiable);
            && (forall k | k in g :: k.0 == u)
            && (forall i :: (u, i) in g <==> i in active && IsRole(Posted(c, i)))
            && (forall i | (u, i) in g ::
                  (g[(u, i)].role == Operator <==> Posted(c, i) == "operator")
                  && (g[(u, i)].canManageNotifications <==> i in notifiable))
  {
    hide Posted, ChosenRole;
    forall i
      ensures ChosenRole(c, i) == Some(Operator) <==> Posted(c, i) == "operator"
      ensures ChosenRole(c, i).Some? <==> IsRole(Posted(c, i))
    {
      ChosenIsPosted(c, i);
      assert ChosenRole(c, i).Some? ==> ChosenRole(c, i).value == ReadOnly || ChosenRole(c, i).value == Operator;
    }
  }

  /** A role update: refused for administrators and other words than the two roles;
      otherwise it sets staff, the role of every grant, and the global flag, and a
      read-only account keeps no flag of any kind. */
  lemma RoleUpdateWrites(t: Tables, u: UserId, role: string, globalFlag: bool)
    ensures Allowed(t, UpdateRole(u, role, globalFlag)) <==>
              u in t.users && !t.users[u].isSuperuser && (role == "readonly" || role == "operator")
    ensures Allowed(t, UpdateRole(u, role, globalFlag)) ==>
              var t1 := Apply(t, UpdateRole(u, role, globalFlag));
              && t1.users == t.users[u := t.users[u].(isStaff := role == "operator")]
              && t1.scopes == t.scopes[u := role == "operator" && globalFlag]
              && t1.grants.Keys == t.grants.Keys
              && (forall i | (u, i) in t.grants ::
                    && (t1.grants[(u, i)].role == Operator <==> role == "operator")
                    && (t1.grants[(u, i)].canManageNotifications <==>
                          role == "operator" && t.grants[(u, i)].canManageNotifications))
              && t1.slots.Keys == t.slots.Keys
              && (u in t.slots ==> t1.slots[u] == if role == "operator" then t.slots[u] else SlotAccess(false, false))
  {
    if Allowed(t, UpdateRole(u, role, globalFlag)) {
      assert forall k | k in t.grants :: k in Apply(t, UpdateRole(u, role, globalFlag)).grants;
    }
  }

  /** Slot rights: refused for administrators and for accounts that are not staff. */
  lemma SlotUpdateWrites(t: Tables, u: UserId, drop: bool, terminate: bool)
    ensures Allowed(t, UpdateSlots(u, drop, terminate)) <==>
              u in t.users && !t.users[u].isSuperuser && t.users[u].isStaff
    ensures Allowed(t, UpdateSlots(u, drop, terminate)) ==>
              Apply(t, UpdateSlots(u, drop, terminate)) == t.(slots := t.slots[u := SlotAccess(drop, terminate)])
  {}

  /** Per-instance access: refused for administrators, and if an operator role is
      posted for an account that is not staff; otherwise the account's grants become
      exactly those posted, and it is under explicit access control. */
  lemma InstanceUpdateWrites(t: Tables, u: UserId, active: set<InstanceId>, c: RoleChoice)
    ensures Allowed(t, UpdateInstances(u, active, c)) <==>
              u in t.users && !t.users[u].isSuperuser
              && (t.users[u].isStaff || forall i | i in active :: Posted(c, i) != "operator")
    ensures Allowed(t, UpdateInstances(u, active, c)) ==>
              var t1 := Apply(t, UpdateInstances(u, active, c));
              && t1.users == t.users && t1.slots == t.slots
              && t1.scopes == (if u in t.scopes then t.scopes else t.scopes[u := false])
              && (forall i :: (u, i) in t1.grants <==> i in active && IsRole(Posted(c, i)))
              && (forall i | (u, i) in t1.grants ::
                    && (t1.grants[(u, i)].role == Operator <==> Posted(c, i) == "operator")
                    && (t1.grants[(u, i)].canManageNotifications <==> Posted(c, i) == "operator" && i in c.notify))
  {
    hide Posted, ChosenRole, GrantsOf, ChoosesOperator, IsRole;
    OperatorPosted(c, active);
    OperatorsPosted(c, active);
    GrantsPosted(u, active, c, OperatorsIn(active, c));
    assert forall i :: (u, i) !in Others(t.grants, u);
  }

  lemma OperatorsPosted(c: RoleChoice, active: set<InstanceId>)
    ensures forall i :: i in OperatorsIn(active, c) <==> i in active && i in c.notify && Posted(c, i) == "operator"
  {
    hide Posted, ChosenRole;
    forall i ensures ChosenRole(c, i) == Some(Operator) <==> Posted(c, i) == "operator" {
      ChosenIsPosted(c, i);
    }
  }

  lemma OperatorPosted(c: RoleChoice, active: set<InstanceId>)
    ensures ChoosesOperator(c, active) <==> exists i :: i in active && Posted(c, i) == "operator"
  {
    hide Posted, ChosenRole;
    forall i ensures ChosenRole(c, i) == Some(Operator) <==> Posted(c, i) == "operator" {
      ChosenIsPosted(c, i);
    }
  }

  /** A new account: refused without name, password or role, for a taken name, and for
      slot or operator access of a read-only account; otherwise it gets exactly what
      was posted, notification flags only as an operator. */
  lemma CreationWrites(t: Tables, a: Action)
    requires a.CreateUser?
    ensures Allowed(t, a) <==>
              && a.username != "" && a.passwordOk && (a.role == "readonly" || a.role == "operator")
              && a.username !in t.users
              && (a.role == "operator" || (!a.canDrop && !a.canTerminate
                                           && forall i | i in a.active :: Posted(a.choice, i) != "operator"))
    ensures Allowed(t, a) ==>
              var t1, u := Apply(t, a), a.username;
              && t1.users == t.users[u := User(false, a.role == "operator", true)]
              && t1.scopes == t.scopes[u := a.role == "operator" && a.globalFlag]
              && t1.slots == (if a.canDrop || a.canTerminate then t.slots[u := SlotAccess(a.canDrop, a.canTerminate)]
                 else t.slots)
              && (forall i | i in a.active && IsRole(Posted(a.choice, i)) ::
                    && (u, i) in t1.grants
                    && (t1.grants[(u, i)].role == Operator <==> Posted(a.choice, i) == "operator")
                    && (t1.grants[(u, i)].canManageNotifications <==> a.role == "operator" && i in a.choice.notify))
              && (forall i | (u, i) in t1.grants && (u, i) !in t.grants ::
                    i in a.active && IsRole(Posted(a.choice, i)))
  {
    hide Posted, ChosenRole, GrantsOf, ChoosesOperator, IsRole;
    OperatorPosted(a.choice, a.active);
    GrantsPosted(a.username, a.active, a.choice, if a.role == "operator" then a.choice.notify else {});
  }

  // ---- the tables as the program holds them ----

  class AccessTables {
    var users: map<UserId, User>
    var grants: map<(UserId, InstanceId), Grant>
    var scopes: map<UserId, bool>
    var slots: map<UserId, SlotAccess>

    function Contents(): Tables
      reads this
    {
      Tables(users, grants, scopes, slots)
    }

    method UpdateUserRole(u: UserId, role: string, globalFlag: bool) returns (done: bool)
      modifies this
      ensures done == Allowed(old(Contents()), UpdateRole(u, role, globalFlag))
      ensures Contents() == Apply(old(Contents()), UpdateRole(u, role, globalFlag))
    {
      hide RoleNamed;
      if u !in users {
        return false;
      }
      ghost var t := Contents();
      var newRole := RoleNamed(role);
      if users[u].isSuperuser || newRole.None? {
        return false;
      }
      users := users[u := users[u].(isStaff := newRole.value == Operator)];
      scopes := scopes[u := newRole.value == Operator && globalFlag];
      grants := map k | k in grants ::
        if k.0 != u then grants[k]
        else Grant(newRole.value, newRole.value == Operator && grants[k].canManageNotifications);
      if newRole.value == ReadOnly && u in slots {
        slots := slots[u := SlotAccess(false, false)];
      }
      assert Contents() == SetRole(t, u, newRole.value, globalFlag);
      return true;
    }

    method UpdateSlotAccess(u: UserId, canDrop: bool, canTerminate: bool) returns (done: bool)
      modifies this
      ensures done == Allowed(old(Contents()), UpdateSlots(u, canDrop, canTerminate))
      ensures Contents() == Apply(old(Contents()), UpdateSlots(u, canDrop, canTerminate))
    {
      if u !in users {
        return false;
      }
      if users[u].isSuperuser || !users[u].isStaff {
        return false;
      }
      slots := slots[u := SlotAccess(canDrop, canTerminate)];
      return true;
    }

    /** The loop over active instances; it stops at the first forbidden choice. */
    method CollectGrants(u: UserId, active: set<InstanceId>, choice: RoleChoice, mayOperate: bool,
                         notifiable: set<InstanceId>)
      returns (allowed: bool, chosen: map<(UserId, InstanceId), Grant>)
      ensures allowed <==> (ChoosesOperator(choice, active) ==> mayOperate)
      ensures allowed ==> chosen == GrantsOf(u, active, choice, notifiable)
    {
      chosen := map[];
      var left := active;
      while left != {}
        invariant left <= active
        invariant !mayOperate ==> forall i | i in active && i !in left :: ChosenRole(choice, i) != Some(Operator)
        invariant chosen == GrantsOf(u, active - left, choice, notifiable)
      {
        var i :| i in left;
        var role := ChosenRole(choice, i);
        if role.Some? {
          if role.value == Operator && !mayOperate {
            return false, chosen;
          }
          chosen := chosen[(u, i) := Grant(role.value, i in notifiable)];
        }
        assert active - (left - {i}) == (active - left) + {i};
        left := left - {i};
      }
      assert active - left == active;
      return true, chosen;
    }

    method UpdateInstanceAccess(u: UserId, active: set<InstanceId>, choice: RoleChoice) returns (done: bool)
      modifies this
      ensures done == Allowed(old(Contents()), UpdateInstances(u, active, choice))
      ensures Contents() == Apply(old(Contents()), UpdateInstances(u, active, choice))
    {
      if u !in users {
        return false;
      }
      if users[u].isSuperuser {
        return false;
      }
      var allowed, chosen := CollectGrants(u, active, choice, users[u].isStaff, OperatorsIn(active, choice));
      if !allowed {
        return false;
      }
      grants := Others(grants, u);
      grants := grants + chosen;
      if u !in scopes {
        scopes := scopes[u := false];
      }
      return true;
    }

    method CreateAccount(u: UserId, passwordOk: bool, role: string, globalFlag: bool, canDrop: bool, canTerminate: bool,
                         active: set<InstanceId>, choice: RoleChoice)
      returns (done: bool)
      modifies this
      ensures done == Allowed(old(Contents()),
                CreateUser(u, passwordOk, role, globalFlag, canDrop, canTerminate, active, choice))
      ensures Contents() == Apply(old(Contents()),
                CreateUser(u, passwordOk, role, globalFlag, canDrop, canTerminate, active, choice))
    {
      if u == "" || !passwordOk || RoleNamed(role).None? {
        return false;
      }
      var operator := RoleNamed(role) == Some(Operator);
      if !operator && (canDrop || canTerminate) {
        return false;
      }
      if u in users {
        return false;
      }
      var allowed, chosen := CollectGrants(u, active, choice, operator, if operator then choice.notify else {});
      if !allowed {
        return false;
      }
      users := users[u := User(false, operator, true)];
      scopes := scopes[u := operator && globalFlag];
      if operator && (canDrop || canTerminate) {
        slots := slots[u := SlotAccess(canDrop, canTerminate)];
      }
      grants := grants + chosen;
      return true;
    }
  }
}
