/** Group names as references: the tables that name groups, the admin operations that change them
    (internal/handler/groups.go, channels.go, admin.go, subscriptions.go, tokens.go, plans.go) and
    the cached name check of internal/setting/group.go. Each operation is one step. */
module GroupRefs {
  import opened Options
  import opened Text
  import opened Lists
  import opened Like
  import opened Gateway

  datatype GroupRow = GroupRow(name: string, isDefault: bool)

  datatype TokenRow = TokenRow(userId: nat, group: string)

  datatype PlanRow = PlanRow(group: string, active: bool)

  /** The tables, channels in the order the database returns them, and the cached group names. */
  datatype Tables = Tables(
    groups: map<nat, GroupRow>, users: map<nat, string>, tokens: map<nat, TokenRow>,
    channels: seq<Channel>, plans: map<nat, PlanRow>, cached: Option<set<string>>)

  function Names(groups: map<nat, GroupRow>): set<string> {
    set id | id in groups :: groups[id].name
  }

  /** setting.GroupExists, answered from the cached names while they last. */
  predicate GroupExists(t: Tables, name: string) {
    name != "" && name in (if t.cached.Some? then t.cached.value else Names(t.groups))
  }

  /** The lookup also fills the cache. */
  function Looked(t: Tables): Tables {
    if t.cached.Some? then t else t.(cached := Some(Names(t.groups)))
  }

  /** Checking a list looks names up only if it has an element to check. */
  function LookedFor(t: Tables, list: string): Tables {
    if Pieces(list) <= {""} then t else Looked(t)
  }

  function OrDefault(group: string): string {
    if TrimSpace(group) == "" then "default" else TrimSpace(group)
  }

  predicate ValidName(name: string) {
    name != "" && Utf8Length(name) <= 64
  }

  /* ---------------------------------------------------------------- rename and delete */

  /** The rewriting loop on one row: the prefilter decides whether it is looked at. */
  function CascadeChannel(d: Dialect, c: Channel, old': string, new': string): Channel {
    if Matches(d, LikePattern(old'), c.group) then c.(group := RewriteList(c.group, old', new')) else c
  }

  function CascadeChannels(d: Dialect, channels: seq<Channel>, old': string, new': string): seq<Channel> {
    seq(|channels|, i requires 0 <= i < |channels| => CascadeChannel(d, channels[i], old', new'))
  }

  /** UPDATE ... SET group = new WHERE group = old. */
  function RenameRef(group: string, old': string, new': string): string {
    if group == old' then new' else group
  }

  function RenameUsers(users: map<nat, string>, old': string, new': string): map<nat, string> {
    map id | id in users :: RenameRef(users[id], old', new')
  }

  function RenameTokens(tokens: map<nat, TokenRow>, old': string, new': string): map<nat, TokenRow> {
    map id | id in tokens :: tokens[id].(group := RenameRef(tokens[id].group, old', new'))
  }

  /** GroupHandler.Update with a name. */
  function RenameGroup(d: Dialect, t: Tables, id: nat, name: string): Tables {
    var n := TrimSpace(name);
    if id !in t.groups || !ValidName(n) || t.groups[id].isDefault
       || (exists k :: k in t.groups && k != id && t.groups[k].name == n) then t
    else
      var old' := t.groups[id].name;
      var t' := t.(groups := t.groups[id := t.groups[id].(name := n)], cached := None);
      if n == old' then t'
      else t'.(users := RenameUsers(t.users, old', n), tokens := RenameTokens(t.tokens, old', n),
               channels := CascadeChannels(d, t.channels, old', n))
  }

  /** The channels that GroupHandler.Delete finds using a name. */
  predicate ChannelsUse(d: Dialect, channels: seq<Channel>, name: string) {
    exists i :: 0 <= i < |channels| && Matches(d, LikePattern(name), channels[i].group)
                && name in Pieces(channels[i].group)
  }

  predicate UsersUse(users: map<nat, string>, name: string) {
    exists id :: id in users && users[id] == name
  }

  predicate TokensUse(tokens: map<nat, TokenRow>, name: string) {
    exists id :: id in tokens && tokens[id].group == name
  }

  /** GroupHandler.Delete. */
  function DeleteGroup(d: Dialect, t: Tables, id: nat): Tables {
    if id !in t.groups || t.groups[id].isDefault
       || UsersUse(t.users, t.groups[id].name) || TokensUse(t.tokens, t.groups[id].name)
       || ChannelsUse(d, t.channels, t.groups[id].name) then t
    else t.(groups := t.groups - {id}, cached := None)
  }

  /** validateChannelPayload's check of a group list. */
  predicate ListAccepted(t: Tables, list: string) {
    forall p :: p in Pieces(list) ==> p == "" || GroupExists(t, p)
  }

  /** A user's tokens follow the user into a group. */
  function MoveTokensOf(tokens: map<nat, TokenRow>, user: nat, group: string): map<nat, TokenRow> {
    map id | id in tokens :: if tokens[id].userId == user then tokens[id].(group := group) else tokens[id]
  }

  datatype Op =
    | CreateGroup(id: nat, name: string)
    | Rename(id: nat, name: string)
    | Delete(id: nat)
    | Enroll(id: nat)                         // Register and setup: the default group, unchecked
    | AddUser(id: nat, group: string)         // the admin's Create
    | DropUser(id: nat)
    | MoveUser(id: nat, group: string)
    | AddToken(id: nat, userId: nat, group: string)
    | MoveToken(id: nat, group: string)
    | DropToken(id: nat)
    | AddChannel(channel: Channel)
    | EditChannel(i: nat, list: string)
    | DropChannel(i: nat)
    | AddPlan(id: nat, group: string, active: bool)
    | EditPlan(id: nat, group: string, status: Option<bool>)
    | DropPlan(id: nat)
    | Grant(user: nat, plan: nat)
    | LoadNames(databaseUp: bool)             // a lookup, by whatever request, that fills the cache
    | ExpireNames                             // the cache outlives its 15 s
    | Elsewhere(names: Option<set<string>>)   // another instance, with these cached names, serves on

  function Step(d: Dialect, t: Tables, op: Op): Tables {
    match op
    case CreateGroup(id, name) => CreateGroupRow(t, id, name)
    case Rename(id, name) => RenameGroup(d, t, id, name)
    case Delete(id) => DeleteGroup(d, t, id)
    case Enroll(id) => if id in t.users then t else t.(users := t.users[id := "default"])
    case AddUser(id, group) => AddUserIn(t, id, group)
    case DropUser(id) => RemoveUser(t, id)
    case MoveUser(id, group) => MoveUserTo(t, id, group)
    case AddToken(id, userId, group) => AddTokenIn(t, id, userId, group)
    case MoveToken(id, group) => MoveTokenTo(t, id, group)
    case DropToken(id) => t.(tokens := t.tokens - {id})
    case AddChannel(channel) => AddChannelRow(t, channel)
    case EditChannel(i, list) => EditChannelList(t, i, list)
    case DropChannel(i) =>
      if i >= |t.channels| then t else t.(channels := t.channels[..i] + t.channels[i + 1..])
    case AddPlan(id, group, active) => AddPlanIn(t, id, group, active)
    case EditPlan(id, group, active) => UpdatePlanIn(t, id, group, active)
    case DropPlan(id) => t.(plans := t.plans - {id})
    case Grant(user, plan) => GrantPlan(t, user, plan)
    case LoadNames(databaseUp) =>
      if t.cached.Some? then t else t.(cached := Some(if databaseUp then Names(t.groups) else {}))
    case ExpireNames => t.(cached := None)
    case Elsewhere(names) => t.(cached := names)
  }

  /** GroupHandler.Create: a cached check, then the unique index. */
  function CreateGroupRow(t: Tables, id: nat, name: string): Tables {
    var n := TrimSpace(name);
    if id in t.groups || !ValidName(n) then t
    else if GroupExists(t, n) || n in Names(t.groups) then Looked(t)
    else t.(groups := t.groups[id := GroupRow(n, false)], cached := None)
  }

  /** AdminHandler.Create, as far as groups go. */
  function AddUserIn(t: Tables, id: nat, group: string): Tables {
    if id in t.users || !GroupExists(t, OrDefault(group)) then Looked(t)
    else Looked(t).(users := t.users[id := OrDefault(group)])
  }

  /** AdminHandler.Delete removes the user's tokens too. */
  function RemoveUser(t: Tables, id: nat): Tables {
    if id !in t.users then t
    else
      t.(users := t.users - {id},
         tokens := map k | k in t.tokens && t.tokens[k].userId != id :: t.tokens[k])
  }

  /** TokenHandler.Create: the given group or the user's own. */
  function AddTokenIn(t: Tables, id: nat, userId: nat, group: string): Tables {
    if id in t.tokens || userId !in t.users then t
    else
      var g := if TrimSpace(group) == "" then t.users[userId] else TrimSpace(group);
      if g == "" then t
      else if !GroupExists(t, g) then Looked(t)
      else Looked(t).(tokens := t.tokens[id := TokenRow(userId, g)])
  }

  /** TokenHandler.Update with a group. */
  function MoveTokenTo(t: Tables, id: nat, group: string): Tables {
    if id !in t.tokens || TrimSpace(group) == "" then t
    else if !GroupExists(t, TrimSpace(group)) then Looked(t)
    else Looked(t).(tokens := t.tokens[id := t.tokens[id].(group := TrimSpace(group))])
  }

  /** ChannelHandler.Create, as far as groups go. */
  function AddChannelRow(t: Tables, channel: Channel): Tables {
    if !ListAccepted(t, channel.group) then LookedFor(t, channel.group)
    else LookedFor(t, channel.group).(
           channels := t.channels + [channel.(group := NormalizeGroupList(channel.group))])
  }

  /** PlanHandler.Create, as far as groups go. */
  function AddPlanIn(t: Tables, id: nat, group: string, active: bool): Tables {
    if id in t.plans || !GroupExists(t, OrDefault(group)) then Looked(t)
    else Looked(t).(plans := t.plans[id := PlanRow(OrDefault(group), active)])
  }

  /** PlanHandler.Update: a blank group and a missing status change nothing. */
  function UpdatePlanIn(t: Tables, id: nat, group: string, active: Option<bool>): Tables {
    if id !in t.plans then t
    else
      var status := if active.Some? then active.value else t.plans[id].active;
      var g := TrimSpace(group);
      if g == "" then t.(plans := t.plans[id := PlanRow(t.plans[id].group, status)])
      else if !GroupExists(t, g) then Looked(t)
      else Looked(t).(plans := t.plans[id := PlanRow(g, status)])
  }

  /** AdminHandler.UpdateGroup. */
  function MoveUserTo(t: Tables, id: nat, group: string): Tables {
    var g := OrDefault(group);
    if Utf8Length(g) > 64 then t
    else if !GroupExists(t, g) || id !in t.users then Looked(t)
    else Looked(t).(users := t.users[id := g], tokens := MoveTokensOf(t.tokens, id, g))
  }

  /** ChannelHandler.Update with a group list; blank lists leave the channel as it is. */
  function EditChannelList(t: Tables, i: nat, list: string): Tables {
    if !ListAccepted(t, list) || i >= |t.channels| || TrimSpace(list) == "" then LookedFor(t, list)
    else LookedFor(t, list).(channels := t.channels[i := t.channels[i].(group := NormalizeGroupList(TrimSpace(list)))])
  }

  /** SubscriptionHandler.Grant, as far as groups go: no check against the groups table. */
  function GrantPlan(t: Tables, user: nat, plan: nat): Tables {
    if user !in t.users || plan !in t.plans || !t.plans[plan].active then t
    else
      var g := t.plans[plan].group;
      t.(users := t.users[user := g], tokens := MoveTokensOf(t.tokens, user, g))
  }

  /* ---------------------------------------------------------------- the handlers */

  class Database {
    var groups: map<nat, GroupRow>
    var users: map<nat, string>
    var tokens: map<nat, TokenRow>
    var channels: seq<Channel>
    var plans: map<nat, PlanRow>
    var cached: Option<set<string>>
    const dialect: Dialect

    constructor (dialect: Dialect, t: Tables)
      ensures this.dialect == dialect && Now() == t
    {
      this.dialect := dialect;
      groups, users, tokens := t.groups, t.users, t.tokens;
      channels, plans, cached := t.channels, t.plans, t.cached;
    }

    function Now(): Tables
      reads this
    {
      Tables(groups, users, tokens, channels, plans, cached)
    }

    method UpdateGroup(id: nat, name: string) returns (ok: bool)
      modifies this
      ensures Now() == RenameGroup(dialect, old(Now()), id, name)
      ensures ok <==> id in old(groups) && ValidName(TrimSpace(name)) && !old(groups)[id].isDefault
                      && !exists k :: k in old(groups) && k != id && old(groups)[k].name == TrimSpace(name)
    {
      if id !in groups {
        return false;
      }
      var oldName := groups[id].name;
      var n := TrimSpace(name);
      if n == "" || Utf8Length(n) > 64 || groups[id].isDefault {
        return false;
      }
      if exists k :: k in groups && k != id && groups[k].name == n {
        return false;
      }
      groups := groups[id := groups[id].(name := n)];
      if n != oldName {
        users := RenameUsers(users, oldName, n);
        tokens := RenameTokens(tokens, oldName, n);
        RewriteChannels(oldName, n);
      }
      cached := None;
      return true;
    }

    /** Rewrites, in memory, the lists of the channels that the LIKE query returns. */
    method RewriteChannels(oldName: string, newName: string)
      modifies this`channels
      ensures channels == CascadeChannels(dialect, old(channels), oldName, newName)
    {
      ghost var before := channels;
      for i := 0 to |channels|
        invariant |channels| == |before|
        invariant forall k :: 0 <= k < i ==>
          channels[k] == CascadeChannels(dialect, before, oldName, newName)[k]
        invariant forall k :: i <= k < |before| ==> channels[k] == before[k]
      {
        if Matches(dialect, LikePattern(oldName), channels[i].group) {
          var renamed, changed := RenameInList(channels[i].group, oldName, newName);
          if changed {
            channels := channels[i := channels[i].(group := Join(renamed, ','))];
          } else {
            RewriteUnlisted(channels[i].group, oldName, newName);
          }
        }
      }
    }

    method RemoveGroup(id: nat) returns (ok: bool)
      modifies this
      ensures Now() == DeleteGroup(dialect, old(Now()), id)
      ensures ok <==> id in old(groups) && id !in groups
    {
      if id !in groups || groups[id].isDefault {
        return false;
      }
      var name := groups[id].name;
      if (exists u :: u in users && users[u] == name) || (exists k :: k in tokens && tokens[k].group == name) {
        return false;
      }
      var used := FindChannelUsing(name);
      if used {
        return false;
      }
      groups := groups - {id};
      cached := None;
      return true;
    }

    /** Substring prefilter, then an exact check of every element. */
    method FindChannelUsing(name: string) returns (used: bool)
      ensures used == ChannelsUse(dialect, channels, name)
    {
      for i := 0 to |channels|
        invariant forall k :: 0 <= k < i ==>
          !(Matches(dialect, LikePattern(name), channels[k].group) && name in Pieces(channels[k].group))
      {
        if Matches(dialect, LikePattern(name), channels[i].group) {
          var parts := Split(channels[i].group, ',');
          for j := 0 to |parts|
            invariant forall k :: 0 <= k < j ==> TrimSpace(parts[k]) != name
          {
            if TrimSpace(parts[j]) == name {
              assert parts[j] in parts;
              return true;
            }
          }
        }
      }
      return false;
    }

    /** The handler's cached check and the insertion under the unique index; id is the new row's. */
    method CreateGroup(id: nat, name: string) returns (ok: bool)
      requires id !in groups
      modifies this
      ensures Now() == CreateGroupRow(old(Now()), id, name)
      ensures ok <==> id in groups
    {
      var n := TrimSpace(name);
      if n == "" || Utf8Length(n) > 64 {
        return false;
      }
      var known := LookupGroup(n);
      if known || exists k :: k in groups && groups[k].name == n {
        return false;
      }
      groups := groups[id := GroupRow(n, false)];
      cached := None;
      return true;
    }

    method CreateUser(id: nat, group: string)
      requires id !in users
      modifies this
      ensures Now() == AddUserIn(old(Now()), id, group)
    {
      var g := TrimSpace(group);
      if g == "" {
        g := "default";
      }
      var known := LookupGroup(g);
      if known {
        users := users[id := g];
      }
    }

    method RegisterUser(id: nat)
      requires id !in users
      modifies this`users
      ensures Now() == Step(dialect, old(Now()), Enroll(id))
    {
      users := users[id := "default"];
    }

    method DeleteUser(id: nat)
      modifies this`users, this`tokens
      ensures Now() == RemoveUser(old(Now()), id)
    {
      if id !in users {
        return;
      }
      users := users - {id};
      tokens := map k | k in tokens && tokens[k].userId != id :: tokens[k];
    }

    method CreatePlan(id: nat, group: string, active: bool)
      requires id !in plans
      modifies this
      ensures Now() == AddPlanIn(old(Now()), id, group, active)
    {
      var g := "default";
      if TrimSpace(group) != "" {
        g := TrimSpace(group);
      }
      var known := LookupGroup(g);
      if known {
        plans := plans[id := PlanRow(g, active)];
      }
    }

    method UpdatePlan(id: nat, group: string, active: Option<bool>)
      modifies this
      ensures Now() == UpdatePlanIn(old(Now()), id, group, active)
    {
      if id !in plans {
        return;
      }
      var row := plans[id];
      if TrimSpace(group) != "" {
        var known := LookupGroup(TrimSpace(group));
        if !known {
          return;
        }
        row := row.(group := TrimSpace(group));
      }
      if active.Some? {
        row := row.(active := active.value);
      }
      plans := plans[id := row];
    }

    method CreateToken(id: nat, userId: nat, group: string)
      requires id !in tokens && userId in users
      modifies this
      ensures Now() == AddTokenIn(old(Now()), id, userId, group)
    {
      var g := users[userId];
      if TrimSpace(group) != "" {
        g := TrimSpace(group);
      }
      var known := LookupGroup(g);
      if known {
        tokens := tokens[id := TokenRow(userId, g)];
      }
    }

    method UpdateTokenGroup(id: nat, group: string)
      requires id in tokens
      modifies this
      ensures Now() == MoveTokenTo(old(Now()), id, group)
    {
      var g := TrimSpace(group);
      if g == "" {
        return;
      }
      var known := LookupGroup(g);
      if known {
        tokens := tokens[id := tokens[id].(group := g)];
      }
    }

    method CreateChannel(channel: Channel)
      modifies this
      ensures Now() == AddChannelRow(old(Now()), channel)
    {
      var accepted := ValidateList(channel.group);
      if accepted {
        var normalized := NormalizeList(channel.group);
        channels := channels + [channel.(group := normalized)];
      }
    }

    method UpdateUserGroup(id: nat, group: string)
      modifies this
      ensures Now() == MoveUserTo(old(Now()), id, group)
    {
      var g := TrimSpace(group);
      if g == "" {
        g := "default";
      }
      if Utf8Length(g) > 64 {
        return;
      }
      var exists' := LookupGroup(g);
      if !exists' || id !in users {
        return;
      }
      users := users[id := g];
      tokens := MoveTokensOf(tokens, id, g);
    }

    /** loadGroups and the lookup on top of it. */
    method LookupGroup(name: string) returns (found: bool)
      modifies this`cached
      ensures found == GroupExists(old(Now()), name)
      ensures Now() == if name == "" then old(Now()) else Looked(old(Now()))
    {
      if name == "" {
        return false;
      }
      if cached == None {
        cached := Some(Names(groups));
      }
      found := name in cached.value;
    }

    method UpdateChannelGroups(i: nat, list: string)
      modifies this
      ensures Now() == EditChannelList(old(Now()), i, list)
    {
      var accepted := ValidateList(list);
      if !accepted || i >= |channels| {
        return;
      }
      var raw := TrimSpace(list);
      if raw != "" {
        var normalized := NormalizeList(raw);
        channels := channels[i := channels[i].(group := normalized)];
      }
    }

    method ValidateList(list: string) returns (accepted: bool)
      modifies this`cached
      ensures accepted == ListAccepted(old(Now()), list)
      ensures Now() == LookedFor(old(Now()), list)
    {
      ghost var before, named := Now(), false;
      var parts := Split(list, ',');
      for i := 0 to |parts|
        invariant Now() == if named then Looked(before) else before
        invariant named ==> !(Pieces(list) <= {""})
        invariant !named ==> forall k :: 0 <= k < i ==> TrimSpace(parts[k]) == ""
        invariant forall k :: 0 <= k < i ==> TrimSpace(parts[k]) == "" || GroupExists(before, TrimSpace(parts[k]))
      {
        var g := TrimSpace(parts[i]);
        if g != "" {
          assert parts[i] in parts && g in Pieces(list);
          named := true;
          var found := LookupGroup(g);
          if !found {
            return false;
          }
        }
      }
      return true;
    }

    method GrantSubscription(user: nat, plan: nat)
      modifies this
      ensures Now() == GrantPlan(old(Now()), user, plan)
    {
      if user !in users || plan !in plans || !plans[plan].active {
        return;
      }
      users := users[user := plans[plan].group];
      tokens := MoveTokensOf(tokens, user, plans[plan].group);
    }
  }
}
