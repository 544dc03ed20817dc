/** What every operation does to each row: who moves into which group, which rows come and go, and what a
    rename and its reversal leave. */
module GroupEffects {
  import opened Options
  import opened Text
  import opened Lists
  import opened Like
  import opened Gateway
  import opened GroupRefs
  import opened GroupIntegrity
  import opened GroupRouting

  function Row<V>(rows: map<nat, V>, id: nat): Option<V> {
    if id in rows then Some(rows[id]) else None
  }

  function At<V>(rows: seq<V>, i: nat): Option<V> {
    if i < |rows| then Some(rows[i]) else None
  }

  /** A blank group means the default one, and any other text its trimmed self. */
  lemma BlankMeansDefault(group: string)
    ensures OrDefault(group) == "default" <==> TrimSpace(group) == "" || TrimSpace(group) == "default"
    ensures TrimSpace(group) != "" ==> OrDefault(group) == TrimSpace(group)
  {
  }

  /** A name is accepted if it is cached; without a cache, if a row has it. */
  lemma KnownNames(t: Tables, name: string)
    ensures GroupExists(t, "") == false
    ensures name != "" && t.cached.None? ==>
              (GroupExists(t, name) <==> exists id :: id in t.groups && t.groups[id].name == name)
    ensures name != "" && t.cached.Some? ==> (GroupExists(t, name) <==> name in t.cached.value)
  {
  }

  /* ---------------------------------------------------------------- row by row */

  /** The operation moves user u into a group, and the user's tokens with it. */
  function MovedTo(t: Tables, op: Op, u: nat): Option<string> {
    match op
    case MoveUser(id, group) =>
      if id == u && u in t.users && Utf8Length(OrDefault(group)) <= 64 && GroupExists(t, OrDefault(group))
      then Some(OrDefault(group)) else None
    case Grant(user, plan) =>
      if user == u && u in t.users && plan in t.plans && t.plans[plan].active
      then Some(t.plans[plan].group) else None
    case _ => None
  }

  /** The name a group is known by afterwards. */
  function NameAfter(t: Tables, op: Op, group: string): string {
    if op.Rename? && Renames(t, op.id, op.name) && group == t.groups[op.id].name then TrimSpace(op.name) else group
  }

  /** The group of a user afterwards. */
  function UserAfter(t: Tables, op: Op, u: nat): Option<string> {
    if u in t.users then
      if op == DropUser(u) then None
      else if MovedTo(t, op, u).Some? then MovedTo(t, op, u)
      else Some(NameAfter(t, op, t.users[u]))
    else if op == Enroll(u) then Some("default")
    else if op.AddUser? && op.id == u && GroupExists(t, OrDefault(op.group)) then Some(OrDefault(op.group))
    else None
  }

  /** The owner and group of a token afterwards. */
  function TokenAfter(t: Tables, op: Op, k: nat): Option<TokenRow> {
    if k in t.tokens then
      var owner, group := t.tokens[k].userId, t.tokens[k].group;
      if op == DropToken(k) || (op == DropUser(owner) && owner in t.users) then None
      else if MovedTo(t, op, owner).Some? then Some(TokenRow(owner, MovedTo(t, op, owner).value))
      else if op.MoveToken? && op.id == k && GroupExists(t, TrimSpace(op.group))
      then Some(TokenRow(owner, TrimSpace(op.group)))
      else Some(TokenRow(owner, NameAfter(t, op, group)))
    else if op.AddToken? && op.id == k && op.userId in t.users then
      var group := if TrimSpace(op.group) == "" then t.users[op.userId] else TrimSpace(op.group);
      if GroupExists(t, group) then Some(TokenRow(op.userId, group)) else None
    else None
  }

  /** A group row afterwards. */
  function GroupAfter(d: Dialect, t: Tables, op: Op, k: nat): Option<GroupRow> {
    if k in t.groups then
      if op == Delete(k) && Deletes(d, t, k) then None
      else if op.Rename? && op.id == k && Renames(t, k, op.name)
      then Some(GroupRow(TrimSpace(op.name), false))
      else Some(t.groups[k])
    else if op.CreateGroup? && op.id == k && ValidName(TrimSpace(op.name))
            && !GroupExists(t, TrimSpace(op.name)) && TrimSpace(op.name) !in Names(t.groups)
    then Some(GroupRow(TrimSpace(op.name), false))
    else None
  }

  /** A plan row afterwards. */
  function PlanAfter(t: Tables, op: Op, k: nat): Option<PlanRow> {
    if k in t.plans then
      if op == DropPlan(k) then None
      else if op.EditPlan? && op.id == k && (TrimSpace(op.group) == "" || GroupExists(t, TrimSpace(op.group))) then
        Some(PlanRow(if TrimSpace(op.group) == "" then t.plans[k].group else TrimSpace(op.group),
                     if op.status.Some? then op.status.value else t.plans[k].active))
      else Some(t.plans[k])
    else if op.AddPlan? && op.id == k && GroupExists(t, OrDefault(op.group))
    then Some(PlanRow(OrDefault(op.group), op.active))
    else None
  }

  /** The i-th channel afterwards. */
  function ChannelAfter(d: Dialect, t: Tables, op: Op, i: nat): Option<Channel> {
    match op
    case AddChannel(c) =>
      if i == |t.channels| && ListAccepted(t, c.group) then Some(c.(group := NormalizeGroupList(c.group)))
      else At(t.channels, i)
    case EditChannel(j, list) =>
      if i == j && i < |t.channels| && TrimSpace(list) != "" && ListAccepted(t, list)
      then Some(t.channels[i].(group := NormalizeGroupList(TrimSpace(list))))
      else At(t.channels, i)
    case DropChannel(j) => At(t.channels, if i < j then i else i + 1)
    case Rename(id, name) =>
      if i < |t.channels| && Renames(t, id, name) && Matches(d, LikePattern(t.groups[id].name), t.channels[i].group)
      then Some(t.channels[i].(group := RewriteList(t.channels[i].group, t.groups[id].name, TrimSpace(name))))
      else At(t.channels, i)
    case _ => At(t.channels, i)
  }

  /** A renaming request that is accepted or changes no row. */
  lemma RenameStep(d: Dialect, t: Tables, id: nat, name: string)
    ensures !Renames(t, id, name) ==>
              RenameGroup(d, t, id, name) == t || RenameGroup(d, t, id, name) == t.(cached := None)
    ensures Renames(t, id, name) ==>
              RenameGroup(d, t, id, name) ==
              var old', n := t.groups[id].name, TrimSpace(name);
              t.(groups := t.groups[id := GroupRow(n, false)], cached := None,
                 users := RenameUsers(t.users, old', n), tokens := RenameTokens(t.tokens, old', n),
                 channels := CascadeChannels(d, t.channels, old', n))
  {
    if !Renames(t, id, name) {
      SameNameChangesNothing(d, t, id, name);
    }
  }

  /** Each user's group after any operation. */
  lemma UsersAfter(d: Dialect, t: Tables, op: Op, u: nat)
    ensures Row(Step(d, t, op).users, u) == UserAfter(t, op, u)
  {
    if op.Rename? {
      RenameRefs(d, t, op, u, u);
    } else if op.MoveUser? || op.Grant? {
      MovedUser(d, t, op, u);
    } else if op.Enroll? || op.AddUser? || op.DropUser? {
      UserOp(d, t, op, u);
    } else {
      StepFramed(d, t, op);
      UntouchedUser(t, op, u);
    }
  }

  lemma UntouchedUser(t: Tables, op: Op, u: nat)
    requires !OnUsers(op)
    ensures UserAfter(t, op, u) == Row(t.users, u)
  {
  }

  lemma MovedUser(d: Dialect, t: Tables, op: Op, u: nat)
    requires op.MoveUser? || op.Grant?
    ensures Row(Step(d, t, op).users, u) == UserAfter(t, op, u)
  {
    MoveStep(d, t, op);
  }

  lemma UserOp(d: Dialect, t: Tables, op: Op, u: nat)
    requires op.Enroll? || op.AddUser? || op.DropUser?
    ensures Row(Step(d, t, op).users, u) == UserAfter(t, op, u)
  {
  }

  lemma RenameRefs(d: Dialect, t: Tables, op: Op, u: nat, k: nat)
    requires op.Rename?
    ensures Row(Step(d, t, op).users, u) == UserAfter(t, op, u)
    ensures Row(Step(d, t, op).tokens, k) == TokenAfter(t, op, k)
  {
    RenameStep(d, t, op.id, op.name);
  }

  /** Moving a user and granting a plan do the same to users and tokens. */
  lemma MoveStep(d: Dialect, t: Tables, op: Op)
    requires op.MoveUser? || op.Grant?
    ensures var u, to, t' := if op.MoveUser? then op.id else op.user,
                             if op.MoveUser? then MovedTo(t, op, op.id) else MovedTo(t, op, op.user), Step(d, t, op);
            && t'.users == (if to.Some? then t.users[u := to.value] else t.users)
            && t'.tokens == (if to.Some? then MoveTokensOf(t.tokens, u, to.value) else t.tokens)
  {
  }

  /** Each token's owner and group after any operation. */
  lemma TokensAfter(d: Dialect, t: Tables, op: Op, k: nat)
    ensures Row(Step(d, t, op).tokens, k) == TokenAfter(t, op, k)
  {
    if op.Rename? {
      RenameRefs(d, t, op, k, k);
    } else if op.MoveUser? || op.Grant? {
      FollowedTokens(d, t, op, k);
    } else if OnTokens(op) {
      TokenOp(d, t, op, k);
    } else {
      StepFramed(d, t, op);
      UntouchedToken(t, op, k);
    }
  }

  lemma UntouchedToken(t: Tables, op: Op, k: nat)
    requires !OnTokens(op)
    ensures TokenAfter(t, op, k) == Row(t.tokens, k)
  {
  }

  lemma FollowedTokens(d: Dialect, t: Tables, op: Op, k: nat)
    requires op.MoveUser? || op.Grant?
    ensures Row(Step(d, t, op).tokens, k) == TokenAfter(t, op, k)
  {
    MoveStep(d, t, op);
  }

  lemma TokenOp(d: Dialect, t: Tables, op: Op, k: nat)
    requires op.AddToken? || op.MoveToken? || op.DropToken? || op.DropUser?
    ensures Row(Step(d, t, op).tokens, k) == TokenAfter(t, op, k)
  {
  }

  /** Each group row after any operation; a change of the groups empties the cache. */
  lemma GroupsAfter(d: Dialect, t: Tables, op: Op, k: nat)
    ensures Row(Step(d, t, op).groups, k) == GroupAfter(d, t, op, k)
    ensures Step(d, t, op).groups != t.groups ==> Step(d, t, op).cached.None?
  {
    if op.Rename? {
      RenameStep(d, t, op.id, op.name);
    } else if op.CreateGroup? || op.Delete? {
      GroupOp(d, t, op, k);
    } else {
      StepFramed(d, t, op);
    }
  }

  lemma GroupOp(d: Dialect, t: Tables, op: Op, k: nat)
    requires op.CreateGroup? || op.Delete?
    ensures Row(Step(d, t, op).groups, k) == GroupAfter(d, t, op, k)
    ensures Step(d, t, op).groups != t.groups ==> Step(d, t, op).cached.None?
  {
  }

  /** Each plan row after any operation. */
  lemma PlansAfter(d: Dialect, t: Tables, op: Op, k: nat)
    ensures Row(Step(d, t, op).plans, k) == PlanAfter(t, op, k)
  {
    if OnPlans(op) {
      PlanOp(d, t, op, k);
    } else {
      StepFramed(d, t, op);
    }
  }

  lemma PlanOp(d: Dialect, t: Tables, op: Op, k: nat)
    requires OnPlans(op)
    ensures Row(Step(d, t, op).plans, k) == PlanAfter(t, op, k)
  {
  }

  /** Each channel row, in order, after any operation. */
  lemma ChannelsAfter(d: Dialect, t: Tables, op: Op, i: nat)
    ensures At(Step(d, t, op).channels, i) == ChannelAfter(d, t, op, i)
  {
    if op.Rename? {
      RenameStep(d, t, op.id, op.name);
    } else if OnChannels(op) {
      ChannelOp(d, t, op, i);
    } else {
      StepFramed(d, t, op);
    }
  }

  lemma ChannelOp(d: Dialect, t: Tables, op: Op, i: nat)
    requires op.AddChannel? || op.EditChannel? || op.DropChannel?
    ensures At(Step(d, t, op).channels, i) == ChannelAfter(d, t, op, i)
  {
    CheckedStep(d, t, op);
    if op.AddChannel? {
      LookingUp(t, op.channel.group);
    } else if op.EditChannel? {
      LookingUp(t, op.list);
    }
  }

  /* ---------------------------------------------------------------- renaming */

  /** A rename moves exactly the members of the group, users and tokens, to the new name, which nobody had before;
      owners, plans and all other groups stay, and no row comes or goes. */
  lemma RenameMovesExactly(d: Dialect, t: Tables, id: nat, name: string)
    requires Sound(t) && Renames(t, id, name)
    ensures var old', n, t' := t.groups[id].name, TrimSpace(name), RenameGroup(d, t, id, name);
            && t'.users.Keys == t.users.Keys && t'.tokens.Keys == t.tokens.Keys && t'.plans == t.plans
            && (forall u :: u in t.users ==> t'.users[u] == if t.users[u] == old' then n else t.users[u])
            && (forall u :: u in t.users ==> (t'.users[u] == n <==> t.users[u] == old'))
            && (forall k :: k in t.tokens ==> t'.tokens[k].userId == t.tokens[k].userId)
            && (forall k :: k in t.tokens ==>
                  t'.tokens[k].group == if t.tokens[k].group == old' then n else t.tokens[k].group)
            && (forall k :: k in t.tokens ==> (t'.tokens[k].group == n <==> t.tokens[k].group == old'))
    ensures var n, t' := TrimSpace(name), RenameGroup(d, t, id, name);
            && t'.groups.Keys == t.groups.Keys && t'.groups[id] == GroupRow(n, false)
            && (forall k :: k in t.groups && k != id ==> t'.groups[k] == t.groups[k])
  {
    RenameStep(d, t, id, name);
    NobodyIsNew(t, id, name);
  }

  lemma NobodyIsNew(t: Tables, id: nat, name: string)
    requires Sound(t) && Renames(t, id, name)
    ensures forall u :: u in t.users ==> t.users[u] != TrimSpace(name)
    ensures forall k :: k in t.tokens ==> t.tokens[k].group != TrimSpace(name)
  {
  }

  /** The channel rows keep their places and everything but their lists. A list that the prefilter finds has the
      elements of the new name for the old one; any other is the same to the character. */
  lemma RenameRewritesLists(d: Dialect, t: Tables, id: nat, name: string, i: nat)
    requires Renames(t, id, name) && i < |t.channels|
    ensures var old', n, t' := t.groups[id].name, TrimSpace(name), RenameGroup(d, t, id, name);
            var c, c' := t.channels[i], t'.channels[i];
            && |t'.channels| == |t.channels| && c' == c.(group := c'.group)
            && (old' in Pieces(c.group) && Matches(d, LikePattern(old'), c.group) ==>
                  Pieces(c'.group) == Pieces(c.group) - {old'} + Pieces(n))
            && (old' !in Pieces(c.group) || !Matches(d, LikePattern(old'), c.group) ==> c' == c)
  {
    var old', n, list := t.groups[id].name, TrimSpace(name), t.channels[i].group;
    RenameStep(d, t, id, name);
    PiecesOfRewrite(list, old', n);
    if old' !in Pieces(list) {
      RewriteUnlisted(list, old', n);
    }
  }

  /** Renaming back is accepted, and restores every group, user and token. */
  lemma RenameBackRestores(d: Dialect, t: Tables, id: nat, name: string)
    requires Sound(t) && Renames(t, id, name) && ValidName(t.groups[id].name)
    ensures var t' := RenameGroup(d, t, id, name); var back := RenameGroup(d, t', id, t.groups[id].name);
            && Renames(t', id, t.groups[id].name)
            && back.groups == t.groups && back.users == t.users && back.tokens == t.tokens && back.plans == t.plans
  {
    BackIsAccepted(d, t, id, name);
    NobodyIsNew(t, id, name);
    RowsGoBack(d, t, id, name);
  }

  lemma RowsGoBack(d: Dialect, t: Tables, id: nat, name: string)
    requires Renames(t, id, name)
    requires var t' := RenameGroup(d, t, id, name);
             && Renames(t', id, t.groups[id].name) && TrimSpace(t.groups[id].name) == t.groups[id].name
             && t'.groups[id].name == TrimSpace(name)
    requires forall u :: u in t.users ==> t.users[u] != TrimSpace(name)
    requires forall k :: k in t.tokens ==> t.tokens[k].group != TrimSpace(name)
    ensures var back := RenameGroup(d, RenameGroup(d, t, id, name), id, t.groups[id].name);
            back.groups == t.groups && back.users == t.users && back.tokens == t.tokens && back.plans == t.plans
  {
    var old', n, t' := t.groups[id].name, TrimSpace(name), RenameGroup(d, t, id, name);
    RenameStep(d, t, id, name);
    RenameStep(d, t', id, old');
    RenamedBack(t.users, t.tokens, old', n);
    assert t.groups[id := GroupRow(n, false)][id := GroupRow(old', false)] == t.groups;
  }

  lemma RenamedBack(users: map<nat, string>, tokens: map<nat, TokenRow>, old': string, n: string)
    requires forall u :: u in users ==> users[u] != n
    requires forall k :: k in tokens ==> tokens[k].group != n
    ensures RenameUsers(RenameUsers(users, old', n), n, old') == users
    ensures RenameTokens(RenameTokens(tokens, old', n), n, old') == tokens
  {
  }

  lemma BackIsAccepted(d: Dialect, t: Tables, id: nat, name: string)
    requires Sound(t) && Renames(t, id, name) && ValidName(t.groups[id].name)
    ensures var t' := RenameGroup(d, t, id, name);
            && Renames(t', id, t.groups[id].name) && TrimSpace(t.groups[id].name) == t.groups[id].name
            && t'.groups[id].name == TrimSpace(name)
  {
    RenameStep(d, t, id, name);
  }

  /** Where LIKE finds both names and neither has a comma, it restores the elements of every channel list too. */
  lemma RenameBackRestoresLists(d: Dialect, t: Tables, id: nat, name: string, i: nat)
    requires Sound(t) && Renames(t, id, name) && ValidName(t.groups[id].name) && i < |t.channels|
    requires d.escapes || (Plain(t.groups[id].name) && Plain(TrimSpace(name)))
    requires ',' !in TrimSpace(name)
    ensures var t' := RenameGroup(d, t, id, name); var back := RenameGroup(d, t', id, t.groups[id].name);
            && |back.channels| == |t.channels|
            && Pieces(back.channels[i].group) == Pieces(t.channels[i].group)
  {
    var old', n, t' := t.groups[id].name, TrimSpace(name), RenameGroup(d, t, id, name);
    var list, list' := t.channels[i].group, t'.channels[i].group;
    RenameRewritesLists(d, t, id, name, i);
    BackIsAccepted(d, t, id, name);
    RenameRewritesLists(d, t', id, old', i);
    TrimSpaceTwice(name);
    PiecesOfElement(n);
    if old' in Pieces(list) {
      PiecesHaveNoComma(list);
      PiecesOfElement(old');
      ListedIsFound(d, old', list);
      ListedIsFound(d, n, list');
    }
    assert n !in Pieces(list) by {
      assert ListNames(t.channels[i].group, Names(t.groups));
    }
  }

  /** A key made without a group takes its user's. After a rename that all channels follow, a user's group sees
      the same candidates in the same order. */
  lemma RenameKeepsUserCandidates(d: Dialect, t: Tables, id: nat, name: string, user: nat, model: string)
    requires Sound(t) && Renames(t, id, name) && user in t.users
    requires forall c :: c in Active(t.channels) ==> Follows(d, c, t.groups[id].name, TrimSpace(name))
    ensures var t' := RenameGroup(d, t, id, name);
            Candidates(Snapshot(t'.channels), model, RouteGroup(t'.users[user])) ==
            Mapped(Candidates(Snapshot(t.channels), model, RouteGroup(t.users[user])),
                   Cascade(d, t.groups[id].name, TrimSpace(name)))
  {
    var old', n, r := t.groups[id].name, TrimSpace(name), t.users[user];
    TrimSpaceTwice(name);
    RenamedNameIsNew(t, id, n);
    UserGroupIsProper(t, id, n, user);
    RenameStep(d, t, id, name);
    FollowersStay(d, t.channels, old', n, r, model);
    assert RouteGroup(r) == r && RouteGroup(RenameRef(r, old', n)) == RenameRef(r, old', n);
  }

  lemma UserGroupIsProper(t: Tables, id: nat, n: string, user: nat)
    requires Sound(t) && Renames(t, id, n) && TrimSpace(n) == n && user in t.users
    ensures t.users[user] != n && t.users[user] != "" && TrimSpace(t.users[user]) == t.users[user]
  {
  }

  /* ---------------------------------------------------------------- moving */

  /** A user moves together with exactly the user's own tokens. */
  lemma TokensFollowTheirUser(d: Dialect, t: Tables, op: Op, u: nat, k: nat)
    requires MovedTo(t, op, u).Some? && k in t.tokens
    ensures var t', g := Step(d, t, op), MovedTo(t, op, u).value;
            && u in t'.users && t'.users[u] == g && k in t'.tokens
            && t'.tokens[k] == if t.tokens[k].userId == u then TokenRow(u, g) else t.tokens[k]
  {
    UsersAfter(d, t, op, u);
    TokensAfter(d, t, op, k);
  }
}
