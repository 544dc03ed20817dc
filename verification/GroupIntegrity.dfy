/** What renaming, deleting and the other group operations keep: references name existing groups, and
    routing stays the same under a rename. */
module GroupIntegrity {
  import opened Options
  import opened Text
  import opened Lists
  import opened Like
  import opened Gateway
  import opened GroupRefs

  /* ---------------------------------------------------------------- the invariant */

  /** Group names are trimmed, non-empty and unique, and the default group is there. */
  ghost predicate WellNamed(groups: map<nat, GroupRow>) {
    && (forall id :: id in groups ==> groups[id].name != "" && TrimSpace(groups[id].name) == groups[id].name)
    && (forall id :: id in groups && groups[id].isDefault ==> groups[id].name == "default")
    && (forall id, k :: id in groups && k in groups && groups[id].name == groups[k].name ==> id == k)
    && (exists id :: id in groups && groups[id].isDefault)
  }

  ghost predicate ListNames(list: string, names: set<string>) {
    forall p :: p in Pieces(list) ==> p == "" || p in names
  }

  ghost predicate UsersName(users: map<nat, string>, names: set<string>) {
    forall id :: id in users ==> users[id] in names
  }

  ghost predicate TokensName(tokens: map<nat, TokenRow>, names: set<string>) {
    forall id :: id in tokens ==> tokens[id].group in names
  }

  ghost predicate ChannelsName(channels: seq<Channel>, names: set<string>) {
    forall i :: 0 <= i < |channels| ==> ListNames(channels[i].group, names)
  }

  /** Every user, token and channel list element names an existing group. */
  ghost predicate RefsHold(t: Tables) {
    var names := Names(t.groups);
    UsersName(t.users, names) && TokensName(t.tokens, names) && ChannelsName(t.channels, names)
  }

  /** The cached names are not stale. */
  predicate FreshNames(t: Tables) {
    t.cached.Some? ==> t.cached.value <= Names(t.groups)
  }

  /** The rows are sound, whatever an instance has cached. */
  ghost predicate Sound(t: Tables) {
    WellNamed(t.groups) && RefsHold(t)
  }

  ghost predicate Integrity(t: Tables) {
    Sound(t) && FreshNames(t)
  }

  lemma DefaultExists(t: Tables)
    requires WellNamed(t.groups)
    ensures "default" in Names(t.groups)
  {
  }

  lemma ListNamesGrow(list: string, names: set<string>, more: set<string>)
    requires ListNames(list, names) && names <= more
    ensures ListNames(list, more)
  {
  }

  /* ---------------------------------------------------------------- rename and references */

  /** Update accepts the name and it is a new one. */
  predicate Renames(t: Tables, id: nat, name: string) {
    var n := TrimSpace(name);
    && id in t.groups && ValidName(n) && !t.groups[id].isDefault && n != t.groups[id].name
    && !exists k :: k in t.groups && k != id && t.groups[k].name == n
  }

  /** The channels that list the old name are found by the prefilter, and the elements of the new
      name all exist after the rename. */
  ghost predicate ChannelsFollow(d: Dialect, channels: seq<Channel>, old': string, new': string, names: set<string>) {
    forall i :: 0 <= i < |channels| && old' in Pieces(channels[i].group) ==>
      Matches(d, LikePattern(old'), channels[i].group) && ListNames(new', names)
  }

  lemma NamesAfterRename(groups: map<nat, GroupRow>, id: nat, n: string)
    requires WellNamed(groups) && id in groups && !groups[id].isDefault
    requires n != "" && TrimSpace(n) == n && !exists k :: k in groups && k != id && groups[k].name == n
    ensures var groups' := groups[id := groups[id].(name := n)];
            WellNamed(groups') && Names(groups') == Names(groups) - {groups[id].name} + {n}
  {
    var groups' := groups[id := groups[id].(name := n)];
    var dflt :| dflt in groups && groups[dflt].isDefault;
    assert dflt in groups' && groups'[dflt].isDefault;
    forall x ensures x in Names(groups') <==> x in Names(groups) - {groups[id].name} + {n} {
      if x in Names(groups') {
        var k :| k in groups' && groups'[k].name == x;
      }
      if x in Names(groups) && x != groups[id].name {
        var k :| k in groups && groups[k].name == x;
        assert groups'[k].name == x;
      }
      if x == n {
        assert groups'[id].name == n;
      }
    }
  }

  lemma ChannelAfterRename(d: Dialect, list: string, old': string, new': string, names: set<string>)
    requires ListNames(list, names) && old' != "" && old' != new'
    ensures var names' := names - {old'} + {new'};
            var list' := if Matches(d, LikePattern(old'), list) then RewriteList(list, old', new') else list;
            ListNames(list', names') <==>
              (old' in Pieces(list) ==> Matches(d, LikePattern(old'), list) && ListNames(new', names'))
  {
    PiecesOfRewrite(list, old', new');
    var names' := names - {old'} + {new'};
    if old' in Pieces(list) && !Matches(d, LikePattern(old'), list) {
      assert old' !in names';
    }
    if old' in Pieces(list) && Matches(d, LikePattern(old'), list) {
      var list' := RewriteList(list, old', new');
      assert Pieces(new') <= Pieces(list');
    }
  }

  /** A rename keeps every reference valid exactly when the channels follow it. */
  lemma RenameKeepsRefsExactly(d: Dialect, t: Tables, id: nat, name: string)
    requires Integrity(t) && Renames(t, id, name)
    ensures var old', n := t.groups[id].name, TrimSpace(name);
            Integrity(RenameGroup(d, t, id, name)) <==>
              ChannelsFollow(d, t.channels, old', n, Names(t.groups) - {old'} + {n})
  {
    var old', n := t.groups[id].name, TrimSpace(name);
    var names := Names(t.groups);
    var names' := names - {old'} + {n};
    TrimSpaceTwice(name);
    NamesAfterRename(t.groups, id, n);
    assert old' in names;
    assert UsersName(RenameUsers(t.users, old', n), names');
    assert TokensName(RenameTokens(t.tokens, old', n), names');
    CascadeNames(d, t.channels, old', n, names);
  }

  lemma CascadeNames(d: Dialect, channels: seq<Channel>, old': string, new': string, names: set<string>)
    requires ChannelsName(channels, names) && old' != "" && old' != new'
    ensures var names' := names - {old'} + {new'};
            ChannelsName(CascadeChannels(d, channels, old', new'), names') <==>
              ChannelsFollow(d, channels, old', new', names')
  {
    var names' := names - {old'} + {new'};
    forall i | 0 <= i < |channels|
      ensures ListNames(CascadeChannels(d, channels, old', new')[i].group, names') <==>
              (old' in Pieces(channels[i].group) ==>
                 Matches(d, LikePattern(old'), channels[i].group) && ListNames(new', names'))
    {
      ChannelAfterRename(d, channels[i].group, old', new', names);
    }
  }

  /** In every sound database the rename of old to new keeps the references. */
  ghost predicate RenameAlwaysSafe(d: Dialect, old': string, new': string) {
    forall t, id :: Integrity(t) && Renames(t, id, new') && t.groups[id].name == old' ==>
      Integrity(RenameGroup(d, t, id, new'))
  }

  ghost predicate ProperName(name: string) {
    name != "default" && name != "" && TrimSpace(name) == name
  }

  /** A database with the default group, one other group, and one channel that lists it. */
  function OneGroup(name: string): Tables {
    Tables(map[0 := GroupRow("default", true), 1 := GroupRow(name, false)], map[], map[],
           [Channel(1, "", "", "", "", "", name, "active", 0)], map[], None)
  }

  lemma OneGroupSound(name: string)
    requires ProperName(name) && ',' !in name
    ensures Integrity(OneGroup(name)) && Names(OneGroup(name).groups) == {"default", name}
    ensures Pieces(name) == {name}
  {
    var t := OneGroup(name);
    PiecesOfElement(name);
    assert TrimSpace("default") == "default";
    assert t.groups[0].isDefault && t.groups[1].name == name;
    assert Names(t.groups) == {"default", name};
  }

  lemma OneGroupRenames(old': string, new': string)
    requires ProperName(old') && ProperName(new') && old' != new' && ValidName(new')
    ensures Renames(OneGroup(old'), 1, new') && OneGroup(old').groups[1].name == old'
  {
  }

  lemma NoListHasComma(name: string, list: string)
    requires ',' in name
    ensures name !in Pieces(list)
  {
    PiecesHaveNoComma(list);
  }

  /** A rename is safe in every database exactly when the old name cannot be listed by a channel, or
      the prefilter is complete for it and the new name brings in no element that need not exist.
      In particular a comma in the new name, or a special character in the old one where LIKE has no
      escape character, leaves channels with groups that do not exist. */
  lemma RenameAlwaysSafeExactly(d: Dialect, old': string, new': string)
    requires ProperName(old') && ProperName(new') && old' != new' && ValidName(new')
    ensures RenameAlwaysSafe(d, old', new') <==>
            ',' in old' || ((d.escapes || Plain(old')) && ListNames(new', {"default", new'}))
  {
    PrefilterCompleteExactly(d, old');
    if ',' !in old' && RenameAlwaysSafe(d, old', new') {
      var t := OneGroup(old');
      OneGroupSound(old');
      OneGroupRenames(old', new');
      assert Integrity(RenameGroup(d, t, 1, new'));
      RenameKeepsRefsExactly(d, t, 1, new');
      assert ChannelsFollow(d, t.channels, old', new', {"default", old'} - {old'} + {new'});
      assert t.channels[0].group == old';
      assert {"default", old'} - {old'} + {new'} == {"default", new'};
      SelfMatchMeansComplete(d, old');
    }
    if ',' in old' || ((d.escapes || Plain(old')) && ListNames(new', {"default", new'})) {
      forall t, id | Integrity(t) && Renames(t, id, new') && t.groups[id].name == old'
        ensures Integrity(RenameGroup(d, t, id, new'))
      {
        SafeRename(d, t, id, new');
      }
    }
  }

  lemma SafeRename(d: Dialect, t: Tables, id: nat, name: string)
    requires Integrity(t) && Renames(t, id, name)
    requires var old', n := t.groups[id].name, TrimSpace(name);
             ',' in old' || ((d.escapes || Plain(old')) && ListNames(n, {"default", n}))
    ensures Integrity(RenameGroup(d, t, id, name))
  {
    var old', n := t.groups[id].name, TrimSpace(name);
    var names' := Names(t.groups) - {old'} + {n};
    RenameKeepsRefsExactly(d, t, id, name);
    DefaultStays(t, id);
    forall i | 0 <= i < |t.channels| && old' in Pieces(t.channels[i].group)
      ensures Matches(d, LikePattern(old'), t.channels[i].group) && ListNames(n, names')
    {
      ListedIsFound(d, old', t.channels[i].group);
      PiecesHaveNoComma(t.channels[i].group);
      ListNamesGrow(n, {"default", n}, names');
    }
  }

  /** A group that is not the default one is not called "default". */
  lemma DefaultStays(t: Tables, id: nat)
    requires WellNamed(t.groups) && id in t.groups && !t.groups[id].isDefault
    ensures t.groups[id].name != "default" && "default" in Names(t.groups)
  {
  }

  lemma SelfMatchMeansComplete(d: Dialect, name: string)
    requires Matches(d, LikePattern(name), name)
    ensures d.escapes || Plain(name)
  {
    if !d.escapes && !Plain(name) {
      NotFoundInItself(d, name);
    }
  }

  /* ---------------------------------------------------------------- delete and grant */

  /** Delete removes the group. */
  predicate Deletes(d: Dialect, t: Tables, id: nat) {
    && id in t.groups && !t.groups[id].isDefault
    && !UsersUse(t.users, t.groups[id].name) && !TokensUse(t.tokens, t.groups[id].name)
    && !ChannelsUse(d, t.channels, t.groups[id].name)
  }

  lemma NamesAfterDelete(groups: map<nat, GroupRow>, id: nat)
    requires WellNamed(groups) && id in groups && !groups[id].isDefault
    ensures WellNamed(groups - {id}) && Names(groups - {id}) == Names(groups) - {groups[id].name}
  {
    var dflt :| dflt in groups && groups[dflt].isDefault;
    assert dflt in groups - {id} && (groups - {id})[dflt].isDefault;
    forall x | x in Names(groups) && x != groups[id].name ensures x in Names(groups - {id}) {
      var k :| k in groups && groups[k].name == x;
      assert (groups - {id})[k].name == x;
    }
  }

  lemma DeleteKeepsRefsExactly(d: Dialect, t: Tables, id: nat)
    requires Integrity(t) && Deletes(d, t, id)
    ensures Integrity(DeleteGroup(d, t, id)) <==>
            forall i :: 0 <= i < |t.channels| ==> t.groups[id].name !in Pieces(t.channels[i].group)
  {
    var name := t.groups[id].name;
    NamesAfterDelete(t.groups, id);
    ChannelsWithout(t.channels, Names(t.groups), name);
    assert UsersName(t.users, Names(t.groups) - {name}) by {
      assert forall u :: u in t.users ==> t.users[u] != name;
    }
    assert TokensName(t.tokens, Names(t.groups) - {name}) by {
      assert forall k :: k in t.tokens ==> t.tokens[k].group != name;
    }
  }

  lemma ChannelsWithout(channels: seq<Channel>, names: set<string>, name: string)
    requires ChannelsName(channels, names) && name != ""
    ensures ChannelsName(channels, names - {name}) <==>
            forall i :: 0 <= i < |channels| ==> name !in Pieces(channels[i].group)
  {
  }

  ghost predicate DeleteAlwaysSafe(d: Dialect, name: string) {
    forall t, id :: Integrity(t) && Deletes(d, t, id) && t.groups[id].name == name ==>
      Integrity(DeleteGroup(d, t, id))
  }

  /** The guard protects every database exactly when no channel can list the name or the prefilter is
      complete for it; on SQLite a group such as "a_b" is deleted while a channel lists it. */
  lemma DeleteAlwaysSafeExactly(d: Dialect, name: string)
    requires ProperName(name)
    ensures DeleteAlwaysSafe(d, name) <==> ',' in name || d.escapes || Plain(name)
  {
    if !d.escapes && !Plain(name) && ',' !in name {
      var t := OneGroup(name);
      OneGroupSound(name);
      NotFoundInItself(d, name);
      assert t.channels[0].group == name;
      assert Deletes(d, t, 1) && t.groups[1].name == name;
      DeleteKeepsRefsExactly(d, t, 1);
    } else {
      forall t, id | Integrity(t) && Deletes(d, t, id) && t.groups[id].name == name
        ensures Integrity(DeleteGroup(d, t, id))
      {
        SafeDelete(d, t, id);
      }
    }
  }

  lemma SafeDelete(d: Dialect, t: Tables, id: nat)
    requires Integrity(t) && Deletes(d, t, id)
    requires ',' in t.groups[id].name || d.escapes || Plain(t.groups[id].name)
    ensures Integrity(DeleteGroup(d, t, id))
  {
    var name := t.groups[id].name;
    DeleteKeepsRefsExactly(d, t, id);
    forall i | 0 <= i < |t.channels| ensures name !in Pieces(t.channels[i].group) {
      if name in Pieces(t.channels[i].group) {
        ListedIsFound(d, name, t.channels[i].group);
      }
    }
  }

  /** The prefilter finds a list with the name among its elements. */
  lemma ListedIsFound(d: Dialect, name: string, list: string)
    requires name in Pieces(list) && (',' in name || d.escapes || Plain(name))
    ensures Matches(d, LikePattern(name), list)
  {
    PiecesHaveNoComma(list);
    ListContainsPieces(list, name);
    PrefilterCompleteExactly(d, name);
  }

  /** A grant moves the user and the user's tokens to the plan's group without a check, so it keeps
      the references exactly when that group still exists. */
  lemma GrantKeepsRefsExactly(t: Tables, user: nat, plan: nat)
    requires Integrity(t) && user in t.users && plan in t.plans && t.plans[plan].active
    ensures Integrity(GrantPlan(t, user, plan)) <==> t.plans[plan].group in Names(t.groups)
  {
    var g := t.plans[plan].group;
    var t' := GrantPlan(t, user, plan);
    assert t'.users[user] == g;
  }

  /** Moving a user keeps the references exactly when the group exists now, whatever the cached names
      say: the names another instance cached up to 15 s ago may still list a deleted group. */
  lemma MoveUserKeepsRefsExactly(t: Tables, id: nat, group: string)
    requires Sound(t)
    requires id in t.users && GroupExists(t, OrDefault(group)) && Utf8Length(OrDefault(group)) <= 64
    ensures Sound(MoveUserTo(t, id, group)) <==> OrDefault(group) in Names(t.groups)
  {
    var g := OrDefault(group);
    MovedRefs(t.users, t.tokens, id, g, Names(t.groups));
    assert MoveUserTo(t, id, group) == Looked(t).(users := t.users[id := g], tokens := MoveTokensOf(t.tokens, id, g));
  }

  lemma MovedRefs(users: map<nat, string>, tokens: map<nat, TokenRow>, id: nat, g: string, names: set<string>)
    requires UsersName(users, names) && TokensName(tokens, names)
    ensures UsersName(users[id := g], names) <==> g in names
    ensures g in names ==> TokensName(MoveTokensOf(tokens, id, g), names)
  {
    assert users[id := g][id] == g;
  }

  /* ---------------------------------------------------------------- one operation */

  /** What a rename, a delete or a grant must find in the rows if it takes effect. */
  ghost predicate Keeps(d: Dialect, t: Tables, op: Op) {
    match op
    case Rename(id, name) =>
      Renames(t, id, name) ==>
        ChannelsFollow(d, t.channels, t.groups[id].name, TrimSpace(name),
                       Names(t.groups) - {t.groups[id].name} + {TrimSpace(name)})
    case Delete(id) =>
      Deletes(d, t, id) ==> forall i :: 0 <= i < |t.channels| ==> t.groups[id].name !in Pieces(t.channels[i].group)
    case Grant(user, plan) =>
      user in t.users && plan in t.plans && t.plans[plan].active ==> t.plans[plan].group in Names(t.groups)
    case _ => true
  }

  /** A name that the cache vouches for. */
  predicate Vouched(t: Tables, name: string) {
    GroupExists(t, name) ==> name in Names(t.groups)
  }

  predicate ListVouched(t: Tables, list: string) {
    ListAccepted(t, list) ==> forall p :: p in Pieces(list) ==> p == "" || p in Names(t.groups)
  }

  /** What an operation that checks names against the cache must find in the rows if it takes effect. */
  predicate Checked(t: Tables, op: Op) {
    match op
    case AddUser(id, group) => id !in t.users ==> Vouched(t, OrDefault(group))
    case MoveUser(id, group) =>
      id in t.users && Utf8Length(OrDefault(group)) <= 64 ==> Vouched(t, OrDefault(group))
    case AddToken(id, userId, group) =>
      id !in t.tokens && userId in t.users && TrimSpace(group) != "" ==> Vouched(t, TrimSpace(group))
    case MoveToken(id, group) => id in t.tokens && TrimSpace(group) != "" ==> Vouched(t, TrimSpace(group))
    case AddChannel(channel) => ListVouched(t, channel.group)
    case EditChannel(i, list) => i < |t.channels| && TrimSpace(list) != "" ==> ListVouched(t, list)
    case _ => true
  }

  /** On an instance whose names are fresh, the checks suffice. */
  lemma FreshChecks(t: Tables, op: Op)
    requires FreshNames(t)
    ensures Checked(t, op)
  {
  }

  lemma CreateKeepsSound(t: Tables, id: nat, name: string)
    requires Sound(t)
    ensures Sound(CreateGroupRow(t, id, name))
  {
    var n := TrimSpace(name);
    var groups' := t.groups[id := GroupRow(n, false)];
    if id !in t.groups && ValidName(n) && n !in Names(t.groups) {
      TrimSpaceTwice(name);
      NewGroupKeepsNames(t.groups, id, n);
      forall i | 0 <= i < |t.channels| ensures ListNames(t.channels[i].group, Names(groups')) {
        ListNamesGrow(t.channels[i].group, Names(t.groups), Names(groups'));
      }
    }
  }

  lemma NewGroupKeepsNames(groups: map<nat, GroupRow>, id: nat, n: string)
    requires WellNamed(groups) && id !in groups && n !in Names(groups) && n != "" && TrimSpace(n) == n
    ensures WellNamed(groups[id := GroupRow(n, false)])
    ensures Names(groups) <= Names(groups[id := GroupRow(n, false)])
  {
    var groups' := groups[id := GroupRow(n, false)];
    var dflt :| dflt in groups && groups[dflt].isDefault;
    assert groups'[dflt].isDefault;
    forall x | x in Names(groups) ensures x in Names(groups') {
      var k :| k in groups && groups[k].name == x;
      assert groups'[k].name == x;
    }
  }

  /** A rejected name, or the name the group has, leaves the rows as they are. */
  lemma SameNameChangesNothing(d: Dialect, t: Tables, id: nat, name: string)
    requires !Renames(t, id, name)
    ensures RenameGroup(d, t, id, name) == t || RenameGroup(d, t, id, name) == t.(cached := None)
  {
  }

  lemma RenameOpExactly(d: Dialect, t: Tables, id: nat, name: string)
    requires Sound(t)
    ensures Sound(RenameGroup(d, t, id, name)) <==> Keeps(d, t, Rename(id, name))
  {
    if Renames(t, id, name) {
      var t0 := t.(cached := None);
      RenameKeepsRefsExactly(d, t0, id, name);
      assert RenameGroup(d, t, id, name) == RenameGroup(d, t0, id, name);
    } else {
      SameNameChangesNothing(d, t, id, name);
    }
  }

  lemma DeleteOpExactly(d: Dialect, t: Tables, id: nat)
    requires Sound(t)
    ensures Sound(DeleteGroup(d, t, id)) <==> Keeps(d, t, Delete(id))
  {
    if Deletes(d, t, id) {
      var t0 := t.(cached := None);
      DeleteKeepsRefsExactly(d, t0, id);
      assert DeleteGroup(d, t, id) == DeleteGroup(d, t0, id);
    }
  }

  lemma GrantOpExactly(d: Dialect, t: Tables, user: nat, plan: nat)
    requires Sound(t)
    ensures Sound(GrantPlan(t, user, plan)) <==> Keeps(d, t, Grant(user, plan))
  {
    if user in t.users && plan in t.plans && t.plans[plan].active {
      var t0 := t.(cached := None);
      GrantKeepsRefsExactly(t0, user, plan);
      assert GrantPlan(t, user, plan) == GrantPlan(t0, user, plan).(cached := t.cached);
    }
  }

  /** What the operations on groups and the grants do. */
  lemma GroupStep(d: Dialect, t: Tables, op: Op)
    ensures op.CreateGroup? ==> Step(d, t, op) == CreateGroupRow(t, op.id, op.name)
    ensures op.Rename? ==> Step(d, t, op) == RenameGroup(d, t, op.id, op.name)
    ensures op.Delete? ==> Step(d, t, op) == DeleteGroup(d, t, op.id)
    ensures op.Grant? ==> Step(d, t, op) == GrantPlan(t, op.user, op.plan)
  {
  }

  lemma GroupOpKeepsExactly(d: Dialect, t: Tables, op: Op)
    requires op.CreateGroup? || op.Rename? || op.Delete? || op.Grant?
    ensures Sound(t) ==> (Sound(Step(d, t, op)) <==> Keeps(d, t, op))
  {
    GroupStep(d, t, op);
    if Sound(t) {
      if op.CreateGroup? {
        CreateKeepsSound(t, op.id, op.name);
      } else if op.Rename? {
        RenameOpExactly(d, t, op.id, op.name);
      } else if op.Delete? {
        DeleteOpExactly(d, t, op.id);
      } else {
        GrantOpExactly(d, t, op.user, op.plan);
      }
    }
  }

  lemma NewUserExactly(t: Tables, id: nat, g: string)
    requires Sound(t)
    ensures Sound(t.(users := t.users[id := g])) <==> g in Names(t.groups)
  {
    assert t.users[id := g][id] == g;
  }

  lemma NewTokenExactly(t: Tables, id: nat, token: TokenRow)
    requires Sound(t)
    ensures Sound(t.(tokens := t.tokens[id := token])) <==> token.group in Names(t.groups)
  {
    assert t.tokens[id := token][id] == token;
  }

  /** Only plans and cached names differ. */
  predicate SameRows(t: Tables, t': Tables) {
    t' == t.(plans := t'.plans, cached := t'.cached)
  }

  lemma SameRowsSound(t: Tables, t': Tables)
    requires SameRows(t, t')
    ensures Sound(t') <==> Sound(t)
  {
  }

  lemma AddUserExactly(t: Tables, id: nat, group: string)
    requires Sound(t)
    ensures Sound(AddUserIn(t, id, group)) <==> (id !in t.users ==> Vouched(t, OrDefault(group)))
  {
    var g := OrDefault(group);
    NewUserExactly(t, id, g);
    SameRowsSound(t, Looked(t));
    SameRowsSound(t.(users := t.users[id := g]), Looked(t).(users := t.users[id := g]));
  }

  lemma MoveUserExactly(t: Tables, id: nat, group: string)
    requires Sound(t)
    ensures Sound(MoveUserTo(t, id, group)) <==>
            (id in t.users && Utf8Length(OrDefault(group)) <= 64 ==> Vouched(t, OrDefault(group)))
  {
    if id in t.users && GroupExists(t, OrDefault(group)) && Utf8Length(OrDefault(group)) <= 64 {
      MoveUserKeepsRefsExactly(t, id, group);
    } else {
      SameRowsSound(t, MoveUserTo(t, id, group));
    }
  }

  lemma AddTokenExactly(t: Tables, id: nat, userId: nat, group: string)
    requires Sound(t)
    ensures Sound(AddTokenIn(t, id, userId, group)) <==>
            (id !in t.tokens && userId in t.users && TrimSpace(group) != "" ==> Vouched(t, TrimSpace(group)))
  {
    if id in t.tokens || userId !in t.users {
      assert AddTokenIn(t, id, userId, group) == t;
    } else {
      var g := if TrimSpace(group) == "" then t.users[userId] else TrimSpace(group);
      var tokens := t.tokens[id := TokenRow(userId, g)];
      NewTokenExactly(t, id, TokenRow(userId, g));
      SameRowsSound(t, Looked(t));
      SameRowsSound(t.(tokens := tokens), Looked(t).(tokens := tokens));
    }
  }

  lemma MoveTokenExactly(t: Tables, id: nat, group: string)
    requires Sound(t)
    ensures Sound(MoveTokenTo(t, id, group)) <==>
            (id in t.tokens && TrimSpace(group) != "" ==> Vouched(t, TrimSpace(group)))
  {
    if id in t.tokens {
      var token := t.tokens[id].(group := TrimSpace(group));
      NewTokenExactly(t, id, token);
      SameRowsSound(t, Looked(t));
      SameRowsSound(t.(tokens := t.tokens[id := token]), Looked(t).(tokens := t.tokens[id := token]));
    }
  }

  lemma DropUserKeepsSound(t: Tables, id: nat)
    requires Sound(t)
    ensures Sound(RemoveUser(t, id))
  {
  }

  lemma DropTokenKeepsSound(t: Tables, id: nat)
    requires Sound(t)
    ensures Sound(t.(tokens := t.tokens - {id}))
  {
  }

  lemma DropChannelKeepsSound(t: Tables, i: nat)
    requires Sound(t) && i < |t.channels|
    ensures Sound(t.(channels := t.channels[..i] + t.channels[i + 1..]))
  {
    var left := t.channels[..i] + t.channels[i + 1..];
    assert forall k :: 0 <= k < |left| ==> left[k] == t.channels[if k < i then k else k + 1];
    ChannelsExactly(t, left);
  }

  lemma DropKeepsSound(d: Dialect, t: Tables, op: Op)
    requires Sound(t) && (op.DropUser? || op.DropToken? || op.DropChannel?)
    ensures Sound(Step(d, t, op))
  {
    if op.DropUser? {
      DropUserKeepsSound(t, op.id);
    } else if op.DropToken? {
      DropTokenKeepsSound(t, op.id);
    } else if op.i < |t.channels| {
      DropChannelKeepsSound(t, op.i);
    }
  }

  /** What is stored names the same groups as what was checked. */
  lemma StoredNames(t: Tables, list: string)
    requires Sound(t)
    ensures ListNames(NormalizeGroupList(list), Names(t.groups)) <==> ListNames(list, Names(t.groups))
    ensures ListNames(NormalizeGroupList(TrimSpace(list)), Names(t.groups)) <==> ListNames(list, Names(t.groups))
  {
    PiecesOfNormalized(list);
    PiecesOfNormalized(TrimSpace(list));
    PiecesOfTrimSpace(list);
    DefaultExists(t);
  }

  lemma AddedChannel(channels: seq<Channel>, c: Channel, names: set<string>)
    requires ChannelsName(channels, names)
    ensures ChannelsName(channels + [c], names) <==> ListNames(c.group, names)
  {
    assert (channels + [c])[|channels|] == c;
  }

  lemma EditedChannel(channels: seq<Channel>, i: nat, c: Channel, names: set<string>)
    requires ChannelsName(channels, names) && i < |channels|
    ensures ChannelsName(channels[i := c], names) <==> ListNames(c.group, names)
  {
    assert channels[i := c][i] == c;
  }

  lemma ChannelsExactly(t: Tables, channels: seq<Channel>)
    requires Sound(t)
    ensures Sound(t.(channels := channels)) <==> ChannelsName(channels, Names(t.groups))
  {
  }

  lemma AddChannelExactly(t: Tables, channel: Channel)
    requires Sound(t)
    ensures Sound(AddChannelRow(t, channel)) <==> ListVouched(t, channel.group)
  {
    var t', stored := AddChannelRow(t, channel), channel.(group := NormalizeGroupList(channel.group));
    if ListAccepted(t, channel.group) {
      StoredNames(t, channel.group);
      AddedChannel(t.channels, stored, Names(t.groups));
      ChannelsExactly(t, t.channels + [stored]);
      SameRowsSound(t.(channels := t.channels + [stored]), t');
    } else {
      SameRowsSound(t, t');
    }
  }

  lemma EditTakesEffect(t: Tables, i: nat, list: string)
    requires Sound(t) && i < |t.channels| && TrimSpace(list) != "" && ListAccepted(t, list)
    ensures Sound(EditChannelList(t, i, list)) <==> ListNames(list, Names(t.groups))
  {
    var c := t.channels[i].(group := NormalizeGroupList(TrimSpace(list)));
    StoredNames(t, list);
    EditedChannel(t.channels, i, c, Names(t.groups));
    ChannelsExactly(t, t.channels[i := c]);
    assert EditChannelList(t, i, list) == LookedFor(t, list).(channels := t.channels[i := c]);
    SameRowsSound(t.(channels := t.channels[i := c]), EditChannelList(t, i, list));
  }

  lemma EditChannelExactly(t: Tables, i: nat, list: string)
    requires Sound(t)
    ensures Sound(EditChannelList(t, i, list)) <==>
            (i < |t.channels| && TrimSpace(list) != "" ==> ListVouched(t, list))
  {
    if ListAccepted(t, list) && i < |t.channels| && TrimSpace(list) != "" {
      EditTakesEffect(t, i, list);
    } else {
      SameRowsSound(t, EditChannelList(t, i, list));
    }
  }

  /** What the operations that check names do, and what they must find. */
  lemma CheckedStep(d: Dialect, t: Tables, op: Op)
    ensures op.AddUser? ==> Step(d, t, op) == AddUserIn(t, op.id, op.group)
    ensures op.MoveUser? ==> Step(d, t, op) == MoveUserTo(t, op.id, op.group)
    ensures op.AddToken? ==> Step(d, t, op) == AddTokenIn(t, op.id, op.userId, op.group)
    ensures op.MoveToken? ==> Step(d, t, op) == MoveTokenTo(t, op.id, op.group)
    ensures op.AddChannel? ==> Step(d, t, op) == AddChannelRow(t, op.channel)
    ensures op.EditChannel? ==> Step(d, t, op) == EditChannelList(t, op.i, op.list)
  {
  }

  lemma CheckedOpKeepsExactly(d: Dialect, t: Tables, op: Op)
    requires op.AddUser? || op.MoveUser? || op.AddToken? || op.MoveToken? || op.AddChannel? || op.EditChannel?
    ensures Sound(t) ==> (Sound(Step(d, t, op)) <==> Checked(t, op))
  {
    CheckedStep(d, t, op);
    if Sound(t) {
      if op.AddUser? {
        AddUserExactly(t, op.id, op.group);
      } else if op.MoveUser? {
        MoveUserExactly(t, op.id, op.group);
      } else if op.AddToken? {
        AddTokenExactly(t, op.id, op.userId, op.group);
      } else if op.MoveToken? {
        MoveTokenExactly(t, op.id, op.group);
      } else if op.AddChannel? {
        AddChannelExactly(t, op.channel);
      } else {
        EditChannelExactly(t, op.i, op.list);
      }
    }
  }

  lemma EnrollKeepsSound(d: Dialect, t: Tables, id: nat)
    requires Sound(t)
    ensures Sound(Step(d, t, Enroll(id)))
  {
    DefaultExists(t);
    NewUserExactly(t, id, "default");
  }

  /** Operations on plans and on the cached names. */
  predicate OffTheRows(op: Op) {
    op.AddPlan? || op.EditPlan? || op.DropPlan? || op.LoadNames? || op.ExpireNames? || op.Elsewhere?
  }

  lemma OffTheRowsSameRows(d: Dialect, t: Tables, op: Op)
    requires OffTheRows(op)
    ensures SameRows(t, Step(d, t, op))
  {
  }

  /** On any instance, with fresh names or stale ones, a step keeps the rows sound exactly when what it takes
      for existing does exist. */
  lemma StepKeepsRefsExactly(d: Dialect, t: Tables, op: Op)
    requires Sound(t)
    ensures Sound(Step(d, t, op)) <==> Keeps(d, t, op) && Checked(t, op)
  {
    if op.CreateGroup? || op.Rename? || op.Delete? || op.Grant? {
      GroupOpKeepsExactly(d, t, op);
    } else if op.Enroll? {
      EnrollKeepsSound(d, t, op.id);
    } else if op.DropUser? || op.DropToken? || op.DropChannel? {
      DropKeepsSound(d, t, op);
    } else if OffTheRows(op) {
      OffTheRowsSameRows(d, t, op);
      SameRowsSound(t, Step(d, t, op));
    } else {
      CheckedOpKeepsExactly(d, t, op);
    }
  }

  /** Operations that can change the groups. */
  predicate OnGroups(op: Op) {
    op.CreateGroup? || op.Rename? || op.Delete?
  }

  predicate OnUsers(op: Op) {
    op.Rename? || op.Enroll? || op.AddUser? || op.DropUser? || op.MoveUser? || op.Grant?
  }

  predicate OnTokens(op: Op) {
    op.Rename? || op.AddToken? || op.MoveToken? || op.DropToken? || op.DropUser? || op.MoveUser? || op.Grant?
  }

  predicate OnPlans(op: Op) {
    op.AddPlan? || op.EditPlan? || op.DropPlan?
  }

  predicate OnChannels(op: Op) {
    op.Rename? || op.AddChannel? || op.EditChannel? || op.DropChannel?
  }

  /** The cached names are no staler. */
  predicate NoStaler(t: Tables, t': Tables) {
    t'.cached == t.cached || t'.cached.None? || t'.cached == Some({}) || t'.cached == Some(Names(t.groups))
  }

  /** An operation leaves the tables alone that it is not about, and only one on groups, or another instance,
      makes the cached names stale. */
  predicate Framed(t: Tables, op: Op, t': Tables) {
    && (OnUsers(op) || t'.users == t.users)
    && (OnTokens(op) || t'.tokens == t.tokens)
    && (OnPlans(op) || t'.plans == t.plans)
    && (OnChannels(op) || t'.channels == t.channels)
    && (OnGroups(op) || t'.groups == t.groups)
    && (OnGroups(op) || op.Elsewhere? || NoStaler(t, t'))
  }

  lemma GroupFrame(d: Dialect, t: Tables, op: Op)
    requires OnGroups(op)
    ensures Framed(t, op, Step(d, t, op))
  {
  }

  lemma UserFrame(d: Dialect, t: Tables, op: Op)
    requires op.Enroll? || op.AddUser? || op.DropUser?
    ensures Framed(t, op, Step(d, t, op))
  {
  }

  lemma MoveFrame(d: Dialect, t: Tables, op: Op)
    requires op.MoveUser? || op.Grant?
    ensures Framed(t, op, Step(d, t, op))
  {
  }

  lemma TokenFrame(d: Dialect, t: Tables, op: Op)
    requires op.AddToken? || op.MoveToken? || op.DropToken?
    ensures Framed(t, op, Step(d, t, op))
  {
  }

  lemma ChannelFrame(d: Dialect, t: Tables, op: Op)
    requires op.AddChannel? || op.EditChannel? || op.DropChannel?
    ensures Framed(t, op, Step(d, t, op))
  {
    CheckedStep(d, t, op);
    if op.AddChannel? {
      LookingUp(t, op.channel.group);
    } else if op.EditChannel? {
      LookingUp(t, op.list);
    }
  }

  lemma LookingUp(t: Tables, list: string)
    ensures LookedFor(t, list) == t.(cached := LookedFor(t, list).cached) && NoStaler(t, LookedFor(t, list))
  {
  }

  lemma PlanFrame(d: Dialect, t: Tables, op: Op)
    requires OnPlans(op)
    ensures Framed(t, op, Step(d, t, op))
  {
    if op.EditPlan? {
      EditPlanFrame(t, op.id, op.group, op.status);
    }
  }

  lemma EditPlanFrame(t: Tables, id: nat, group: string, status: Option<bool>)
    ensures var t' := UpdatePlanIn(t, id, group, status);
            t' == t.(plans := t'.plans, cached := t'.cached) && NoStaler(t, t')
  {
  }

  /** Each operation changes the tables it is about and no others. */
  lemma StepFramed(d: Dialect, t: Tables, op: Op)
    ensures Framed(t, op, Step(d, t, op))
  {
    if OnGroups(op) {
      GroupFrame(d, t, op);
    } else if op.MoveUser? || op.Grant? {
      MoveFrame(d, t, op);
    } else if OnUsers(op) {
      UserFrame(d, t, op);
    } else if op.AddToken? || op.MoveToken? || op.DropToken? {
      TokenFrame(d, t, op);
    } else if OnChannels(op) {
      ChannelFrame(d, t, op);
    } else if OnPlans(op) {
      PlanFrame(d, t, op);
    }
  }

  lemma CacheAfterGroupOp(d: Dialect, t: Tables, op: Op)
    requires OnGroups(op)
    ensures var t' := Step(d, t, op); t'.cached == None || t' == t || t' == Looked(t)
  {
  }

  /** One instance drops its names whenever it changes a group, so its names stay fresh. */
  lemma NamesStayFresh(d: Dialect, t: Tables, op: Op)
    requires FreshNames(t) && !op.Elsewhere?
    ensures FreshNames(Step(d, t, op))
  {
    if OnGroups(op) {
      CacheAfterGroupOp(d, t, op);
    } else {
      StepFramed(d, t, op);
    }
  }

  /** On a single instance, a step keeps the invariant exactly when a rename is followed by all channels that
      list the old name, a deleted group is listed by none, and a granted group exists. */
  lemma StepKeepsIntegrityExactly(d: Dialect, t: Tables, op: Op)
    requires Integrity(t) && !op.Elsewhere?
    ensures Integrity(Step(d, t, op)) <==> Keeps(d, t, op)
  {
    StepKeepsRefsExactly(d, t, op);
    FreshChecks(t, op);
    NamesStayFresh(d, t, op);
  }

  /* ---------------------------------------------------------------- runs */

  function Run(d: Dialect, t: Tables, ops: seq<Op>): Tables
    decreases |ops|
  {
    if ops == [] then t else Run(d, Step(d, t, ops[0]), ops[1..])
  }

  /** The rows are sound before and after every operation of the run. */
  ghost predicate SoundThroughout(d: Dialect, t: Tables, ops: seq<Op>)
    decreases |ops|
  {
    Sound(t) && (ops == [] || SoundThroughout(d, Step(d, t, ops[0]), ops[1..]))
  }

  ghost predicate AllKeep(d: Dialect, t: Tables, ops: seq<Op>)
    decreases |ops|
  {
    ops == [] ||
    (Keeps(d, t, ops[0]) && Checked(t, ops[0]) && AllKeep(d, Step(d, t, ops[0]), ops[1..]))
  }

  /** In every run of any number of instances, each with its own cached names, every user group, token group
      and non-empty channel list element names an existing group at every moment exactly when what each
      operation takes for existing does exist then. */
  lemma {:induction false} RunKeepsRefsExactly(d: Dialect, t: Tables, ops: seq<Op>)
    requires Sound(t)
    ensures SoundThroughout(d, t, ops) <==> AllKeep(d, t, ops)
    decreases |ops|
  {
    if ops != [] {
      StepKeepsRefsExactly(d, t, ops[0]);
      if Sound(Step(d, t, ops[0])) {
        RunKeepsRefsExactly(d, Step(d, t, ops[0]), ops[1..]);
      }
    }
  }

  predicate OneInstance(ops: seq<Op>) {
    forall op :: op in ops ==> !op.Elsewhere?
  }

  ghost predicate IntegrityThroughout(d: Dialect, t: Tables, ops: seq<Op>)
    decreases |ops|
  {
    Integrity(t) && (ops == [] || IntegrityThroughout(d, Step(d, t, ops[0]), ops[1..]))
  }

  /** The renames, deletes and grants of the run find what they must find. */
  ghost predicate GroupOpsKeep(d: Dialect, t: Tables, ops: seq<Op>)
    decreases |ops|
  {
    ops == [] || (Keeps(d, t, ops[0]) && GroupOpsKeep(d, Step(d, t, ops[0]), ops[1..]))
  }

  /** On a single instance only renames, deletes and grants matter. */
  lemma {:induction false} RunKeepsIntegrityExactly(d: Dialect, t: Tables, ops: seq<Op>)
    requires Integrity(t) && OneInstance(ops)
    ensures IntegrityThroughout(d, t, ops) <==> GroupOpsKeep(d, t, ops)
    decreases |ops|
  {
    if ops != [] {
      assert ops[0] in ops && OneInstance(ops[1..]);
      StepKeepsIntegrityExactly(d, t, ops[0]);
      if Integrity(Step(d, t, ops[0])) {
        RunKeepsIntegrityExactly(d, Step(d, t, ops[0]), ops[1..]);
      }
    }
  }

  /** The default group is never lost, whatever the operations are. */
  lemma {:induction false} DefaultIsNeverLost(d: Dialect, t: Tables, ops: seq<Op>)
    requires WellNamed(t.groups)
    ensures WellNamed(Run(d, t, ops).groups) && "default" in Names(Run(d, t, ops).groups)
    decreases |ops|
  {
    if ops == [] {
      DefaultExists(t);
    } else {
      StepKeepsNames(d, t, ops[0]);
      DefaultIsNeverLost(d, Step(d, t, ops[0]), ops[1..]);
    }
  }

  lemma StepKeepsNames(d: Dialect, t: Tables, op: Op)
    requires WellNamed(t.groups)
    ensures WellNamed(Step(d, t, op).groups)
  {
    GroupStep(d, t, op);
    if op.CreateGroup? {
      CreateKeepsNames(t, op.id, op.name);
    } else if op.Rename? {
      RenameKeepsNames(d, t, op.id, op.name);
    } else if op.Delete? {
      DeleteKeepsNames(d, t, op.id);
    } else if !op.Elsewhere? {
      StepFramed(d, t, op);
    }
  }

  lemma CreateKeepsNames(t: Tables, id: nat, name: string)
    requires WellNamed(t.groups)
    ensures WellNamed(CreateGroupRow(t, id, name).groups)
  {
    if CreateGroupRow(t, id, name).groups != t.groups {
      TrimSpaceTwice(name);
      NewGroupKeepsNames(t.groups, id, TrimSpace(name));
    }
  }

  lemma RenameKeepsNames(d: Dialect, t: Tables, id: nat, name: string)
    requires WellNamed(t.groups)
    ensures WellNamed(RenameGroup(d, t, id, name).groups)
  {
    if Renames(t, id, name) {
      TrimSpaceTwice(name);
      NamesAfterRename(t.groups, id, TrimSpace(name));
    } else {
      SameNameChangesNothing(d, t, id, name);
    }
  }

  lemma DeleteKeepsNames(d: Dialect, t: Tables, id: nat)
    requires WellNamed(t.groups)
    ensures WellNamed(DeleteGroup(d, t, id).groups)
  {
    if DeleteGroup(d, t, id).groups != t.groups {
      NamesAfterDelete(t.groups, id);
    }
  }

  /* ---------------------------------------------------------------- runs that break it */

  /** After the first boot: the default group, and nothing else. */
  const FIRST_BOOT := Tables(map[0 := GroupRow("default", true)], map[], map[], [], map[], None)

  /** A run through given databases. */
  lemma {:induction false} RunThrough(d: Dialect, ts: seq<Tables>, ops: seq<Op>)
    requires |ts| == |ops| + 1 && forall i :: 0 <= i < |ops| ==> Step(d, ts[i], ops[i]) == ts[i + 1]
    ensures Run(d, ts[0], ops) == Last(ts)
    decreases |ops|
  {
    if ops != [] {
      RunThrough(d, ts[1..], ops[1..]);
    }
  }

  lemma FirstBootIsSound()
    ensures Integrity(FIRST_BOOT) && Names(FIRST_BOOT.groups) == {"default"}
  {
    assert TrimSpace("default") == "default";
    assert FIRST_BOOT.groups[0].isDefault && FIRST_BOOT.groups[0].name == "default";
  }

  /** A second group on a fresh instance. */
  lemma SecondGroup(name: string)
    requires ProperName(name) && ValidName(name)
    ensures CreateGroupRow(FIRST_BOOT, 1, name) == FIRST_BOOT.(groups := OneGroup(name).groups)
  {
    FirstBootIsSound();
  }

  /** Deleting a group that only a plan names succeeds, and a grant of that plan then leaves the user with a
      group that does not exist. */
  function DanglingGrant(name: string): seq<Op> {
    [CreateGroup(1, name), Enroll(0), AddPlan(0, name, true), Delete(1), Grant(0, 0)]
  }

  lemma GrantCanDangle(d: Dialect, name: string)
    requires ProperName(name) && ValidName(name)
    ensures var t := Run(d, FIRST_BOOT, DanglingGrant(name));
            0 in t.users && t.users[0] == name && name !in Names(t.groups) && !Integrity(t)
  {
    FirstBootIsSound();
    DanglingRun(d, name);
  }

  lemma DanglingRun(d: Dialect, name: string)
    requires ProperName(name) && ValidName(name)
    ensures Run(d, FIRST_BOOT, DanglingGrant(name)) ==
            FIRST_BOOT.(users := map[0 := name], plans := map[0 := PlanRow(name, true)])
  {
    var t1 := FIRST_BOOT.(groups := OneGroup(name).groups);
    var t2 := t1.(users := map[0 := "default"]);
    var t3 := t2.(plans := map[0 := PlanRow(name, true)], cached := Some({"default", name}));
    var t4 := FIRST_BOOT.(users := t2.users, plans := t3.plans);
    SecondGroup(name);
    PlanNamesGroup(t2, name);
    PlannedGroupGoes(d, t3, name);
    assert GrantPlan(t4, 0, 0) == t4.(users := map[0 := name]) by {
      assert MoveTokensOf(map[], 0, name) == map[];
    }
    RunThrough(d, [FIRST_BOOT, t1, t2, t3, t4, t4.(users := map[0 := name])], DanglingGrant(name));
  }

  lemma PlanNamesGroup(t: Tables, name: string)
    requires ProperName(name) && t == FIRST_BOOT.(groups := OneGroup(name).groups, users := map[0 := "default"])
    ensures AddPlanIn(t, 0, name, true) == t.(plans := map[0 := PlanRow(name, true)], cached := Some({"default", name}))
  {
    assert t.groups[0].name == "default" && t.groups[1].name == name;
    assert Names(t.groups) == {"default", name};
  }

  /** Only the plan names the group, so it can go. */
  lemma PlannedGroupGoes(d: Dialect, t: Tables, name: string)
    requires ProperName(name) && t.groups == OneGroup(name).groups && t.users == map[0 := "default"]
    requires t.tokens == map[] && t.channels == []
    ensures DeleteGroup(d, t, 1) == t.(groups := FIRST_BOOT.groups, cached := None)
  {
    assert t.groups - {1} == FIRST_BOOT.groups;
  }

  /** A group is made, another instance caches the names, the group is deleted, and the other instance then
      still accepts it for a new user. */
  function StaleAccept(name: string): seq<Op> {
    [CreateGroup(1, name), Delete(1), Elsewhere(Some({"default", name})), AddUser(0, name)]
  }

  lemma StaleNamesCanDangle(d: Dialect, name: string)
    requires ProperName(name) && ValidName(name)
    ensures OneGroup(name).cached == None && Looked(OneGroup(name)).cached == Some({"default", name})
    ensures var t := Run(d, FIRST_BOOT, StaleAccept(name));
            0 in t.users && t.users[0] == name && name !in Names(t.groups) && !Sound(t)
  {
    var t1 := FIRST_BOOT.(groups := OneGroup(name).groups);
    var t3 := FIRST_BOOT.(cached := Some({"default", name}));
    FirstBootIsSound();
    SecondGroup(name);
    assert t1.groups[0].name == "default" && t1.groups[1].name == name && Names(t1.groups) == {"default", name};
    assert DeleteGroup(d, t1, 1) == FIRST_BOOT by {
      assert t1.groups - {1} == FIRST_BOOT.groups;
    }
    RunThrough(d, [FIRST_BOOT, t1, FIRST_BOOT, t3, t3.(users := map[0 := name])], StaleAccept(name));
  }

  /** The database in which an unsafe rename or delete goes wrong is reached from the first boot by making
      one group and one channel. */
  lemma OneGroupIsReachable(d: Dialect, name: string)
    requires ProperName(name) && ValidName(name) && ',' !in name
    ensures var ops := [CreateGroup(1, name), AddChannel(OneGroup(name).channels[0]), ExpireNames];
            Run(d, FIRST_BOOT, ops) == OneGroup(name)
  {
    var channel := OneGroup(name).channels[0];
    var t := FIRST_BOOT.(groups := OneGroup(name).groups);
    SecondGroup(name);
    OneChannel(t, channel, name);
    RunThrough(d, [FIRST_BOOT, t, AddChannelRow(t, channel), OneGroup(name)],
               [CreateGroup(1, name), AddChannel(channel), ExpireNames]);
  }

  lemma NormalizedElement(name: string)
    requires name != "" && TrimSpace(name) == name && ',' !in name
    ensures NormalizeGroupList(name) == name && Pieces(name) == {name}
  {
    PiecesOfElement(name);
    SplitWithoutSeparator(name, ',');
    assert Kept([name]) == [name];
  }

  lemma OneChannel(t: Tables, channel: Channel, name: string)
    requires ProperName(name) && ',' !in name && channel.group == name
    requires t == FIRST_BOOT.(groups := OneGroup(name).groups)
    ensures AddChannelRow(t, channel).(cached := None) == t.(channels := [channel])
  {
    NormalizedElement(name);
    assert GroupExists(t, name) by {
      assert t.groups[1].name == name;
    }
    assert ListAccepted(t, name) && Pieces(name) != {""};
  }
}
