/** What a group rename does to routing: which channels a token is served by, and in which order. */
module GroupRouting {
  import opened Text
  import opened Lists
  import opened Like
  import opened Gateway
  import opened GroupRefs
  import opened GroupIntegrity

  /** For every channel list and request group that the rename does not make ambiguous, membership is
      the same before and after. */
  ghost predicate RenameKeepsRouting(old': string, new': string) {
    forall list, r :: new' !in Pieces(list) && r != new' && TrimSpace(r) == r ==>
      InGroup(RewriteList(list, old', new'), RenameRef(r, old', new')) == InGroup(list, r)
  }

  /** Renaming a non-default group to an unused name preserves routing exactly when the new name has no
      comma (or the old one has, so that no channel lists it). */
  lemma RenameKeepsRoutingExactly(old': string, new': string)
    requires ProperName(old') && ProperName(new') && old' != new'
    ensures RenameKeepsRouting(old', new') <==> ',' in old' || ',' !in new'
  {
    if ',' in old' || ',' !in new' {
      forall list, r | new' !in Pieces(list) && r != new' && TrimSpace(r) == r
        ensures InGroup(RewriteList(list, old', new'), RenameRef(r, old', new')) == InGroup(list, r)
      {
        RoutingUnderRename(list, r, old', new');
      }
    } else {
      PiecesOfElement(old');
      PiecesOfRewrite(old', old', new');
      NoListHasComma(new', RewriteList(old', old', new'));
      assert RenameRef(old', old', new') == new';
      assert InGroup(old', old') && !InGroup(RewriteList(old', old', new'), new');
    }
  }

  lemma RoutingUnderRename(list: string, r: string, old': string, new': string)
    requires ProperName(old') && ProperName(new') && old' != new'
    requires ',' in old' || ',' !in new'
    requires new' !in Pieces(list) && r != new' && TrimSpace(r) == r
    ensures InGroup(RewriteList(list, old', new'), RenameRef(r, old', new')) == InGroup(list, r)
  {
    if ',' in old' {
      NoListHasComma(old', list);
      RewriteUnlisted(list, old', new');
    } else {
      PiecesOfRewrite(list, old', new');
      PiecesOfElement(new');
    }
    MemberUnderRename(Pieces(list), Pieces(RewriteList(list, old', new')), r, old', new');
  }

  lemma MemberUnderRename(before: set<string>, after: set<string>, r: string, old': string, new': string)
    requires old' !in {"", "default"} && new' !in {"", "default"}
    requires after == before - {old'} + if old' in before then {new'} else {}
    requires new' !in before && r != new'
    ensures Member(after, RenameRef(r, old', new')) == Member(before, r)
  {
  }

  /** Proxy.routeGroup: the token's group, or the default pool. */
  function RouteGroup(group: string): string {
    if TrimSpace(group) != "" then TrimSpace(group) else "default"
  }

  /* ---------------------------------------------------------------- rows whose lists change */

  function Mapped(cs: seq<Channel>, f: Channel -> Channel): seq<Channel> {
    if cs == [] then [] else [f(cs[0])] + Mapped(cs[1..], f)
  }

  /** At most the group list of a channel changes. */
  ghost predicate OnlyGroup(f: Channel -> Channel) {
    forall c :: f(c) == c.(group := f(c).group)
  }

  lemma {:induction false} MappedAt(cs: seq<Channel>, f: Channel -> Channel)
    ensures |Mapped(cs, f)| == |cs| && forall i :: 0 <= i < |cs| ==> Mapped(cs, f)[i] == f(cs[i])
  {
    if cs != [] {
      MappedAt(cs[1..], f);
    }
  }

  lemma {:induction false} InsertMapped(c: Channel, sorted: seq<Channel>, f: Channel -> Channel)
    requires OnlyGroup(f)
    ensures Insert(f(c), Mapped(sorted, f)) == Mapped(Insert(c, sorted), f)
  {
    assert f(c).priority == c.priority;
    if sorted != [] {
      assert f(sorted[0]).priority == sorted[0].priority;
    }
    if sorted != [] && c.priority < sorted[0].priority {
      InsertMapped(c, sorted[1..], f);
      assert Insert(c, sorted)[1..] == Insert(c, sorted[1..]);
    } else {
      assert ([c] + sorted)[1..] == sorted;
    }
  }

  lemma {:induction false} SortMapped(rows: seq<Channel>, f: Channel -> Channel)
    requires OnlyGroup(f)
    ensures SortByPriority(Mapped(rows, f)) == Mapped(SortByPriority(rows), f)
  {
    if rows != [] {
      SortMapped(rows[1..], f);
      InsertMapped(rows[0], SortByPriority(rows[1..]), f);
    }
  }

  lemma {:induction false} ActiveMapped(rows: seq<Channel>, f: Channel -> Channel)
    requires OnlyGroup(f)
    ensures Active(Mapped(rows, f)) == Mapped(Active(rows), f)
  {
    if rows != [] {
      ActiveMapped(rows[1..], f);
      assert f(rows[0]).status == rows[0].status;
      var rest := Active(rows[1..]);
      assert ([rows[0]] + rest)[1..] == rest && [] + rest == rest;
    }
  }

  /** Filtering and sorting commute with a change of group lists. */
  lemma SnapshotMapped(rows: seq<Channel>, f: Channel -> Channel)
    requires OnlyGroup(f)
    ensures Snapshot(Mapped(rows, f)) == Mapped(Snapshot(rows), f)
  {
    ActiveMapped(rows, f);
    SortMapped(Active(rows), f);
  }

  lemma {:induction false} CandidatesMapped(
    cs: seq<Channel>, f: Channel -> Channel, model: string, r: string, r': string)
    requires OnlyGroup(f) && forall c :: c in cs ==> InGroup(f(c).group, r') == InGroup(c.group, r)
    ensures Candidates(Mapped(cs, f), model, r') == Mapped(Candidates(cs, model, r), f)
  {
    if cs != [] {
      CandidatesMapped(cs[1..], f, model, r, r');
      assert cs[0] in cs && f(cs[0]).models == cs[0].models;
      assert Eligible(f(cs[0]), model, r') == Eligible(cs[0], model, r);
      var rest, all := Candidates(cs[1..], model, r), Mapped(cs, f);
      assert all[0] == f(cs[0]) && all[1..] == Mapped(cs[1..], f);
      assert ([cs[0]] + rest)[1..] == rest && [] + rest == rest;
    }
  }

  /** If no channel becomes eligible, there are no more candidates, and fewer if one is lost. */
  lemma {:induction false} CandidatesLost(
    cs: seq<Channel>, f: Channel -> Channel, model: string, r: string, r': string)
    requires forall c :: c in cs && Eligible(f(c), model, r') ==> Eligible(c, model, r)
    ensures |Candidates(Mapped(cs, f), model, r')| <= |Candidates(cs, model, r)|
    ensures (exists c :: c in cs && Eligible(c, model, r) && !Eligible(f(c), model, r')) ==>
              |Candidates(Mapped(cs, f), model, r')| < |Candidates(cs, model, r)|
  {
    if cs != [] {
      assert cs[0] in cs && forall c :: c in cs[1..] ==> c in cs;
      CandidatesLost(cs[1..], f, model, r, r');
      var all := Mapped(cs, f);
      assert all[0] == f(cs[0]) && all[1..] == Mapped(cs[1..], f);
      if c :| c in cs && Eligible(c, model, r) && !Eligible(f(c), model, r') && c != cs[0] {
        assert c in cs[1..];
      }
    }
  }

  /* ---------------------------------------------------------------- the cascade */

  function Cascade(d: Dialect, old': string, new': string): Channel -> Channel {
    (c: Channel) => CascadeChannel(d, c, old', new')
  }

  /** The snapshot after the cascade is the snapshot before it, row by row. */
  lemma SnapshotCascaded(d: Dialect, channels: seq<Channel>, old': string, new': string)
    ensures Snapshot(CascadeChannels(d, channels, old', new')) == Mapped(Snapshot(channels), Cascade(d, old', new'))
  {
    MappedAt(channels, Cascade(d, old', new'));
    assert CascadeChannels(d, channels, old', new') == Mapped(channels, Cascade(d, old', new'));
    SnapshotMapped(channels, Cascade(d, old', new'));
  }

  /** A name the unique index accepts is not in use anywhere. */
  lemma RenamedNameIsNew(t: Tables, id: nat, n: string)
    requires Sound(t) && Renames(t, id, n) && TrimSpace(n) == n
    ensures ProperName(t.groups[id].name) && ProperName(n) && t.groups[id].name != n
    ensures forall k :: k in t.tokens ==>
              t.tokens[k].group != n && t.tokens[k].group != "" && TrimSpace(t.tokens[k].group) == t.tokens[k].group
    ensures forall c :: c in t.channels ==> n !in Pieces(c.group)
  {
  }

  /** The rename finds the row, and the new name is one element. */
  predicate Follows(d: Dialect, c: Channel, old': string, new': string) {
    old' in Pieces(c.group) ==> Matches(d, LikePattern(old'), c.group) && ',' !in new'
  }

  lemma FollowingKeepsRouting(d: Dialect, c: Channel, r: string, old': string, new': string)
    requires ProperName(old') && ProperName(new') && old' != new' && Follows(d, c, old', new')
    requires new' !in Pieces(c.group) && r != new' && TrimSpace(r) == r
    ensures InGroup(CascadeChannel(d, c, old', new').group, RenameRef(r, old', new')) == InGroup(c.group, r)
  {
    if old' in Pieces(c.group) {
      RoutingUnderRename(c.group, r, old', new');
    } else {
      RewriteUnlisted(c.group, old', new');
      MemberUnderRename(Pieces(c.group), Pieces(c.group), r, old', new');
    }
  }

  lemma LosingRouting(d: Dialect, c: Channel, old': string, new': string)
    requires ProperName(old') && ProperName(new') && old' != new' && new' !in Pieces(c.group)
    ensures InGroup(CascadeChannel(d, c, old', new').group, new') ==> InGroup(c.group, old')
    ensures !Follows(d, c, old', new') ==>
              InGroup(c.group, old') && !InGroup(CascadeChannel(d, c, old', new').group, new')
  {
    if old' !in Pieces(c.group) {
      RewriteUnlisted(c.group, old', new');
    } else if ',' in new' {
      NoListHasComma(new', CascadeChannel(d, c, old', new').group);
    }
  }

  /** Every request group sees, for every model, the same candidates in the same order. */
  ghost predicate CandidatesStay(d: Dialect, channels: seq<Channel>, old': string, new': string) {
    forall r, model :: r != new' && TrimSpace(r) == r ==> CandidatesStayFor(d, channels, old', new', r, model)
  }

  predicate CandidatesStayFor(
    d: Dialect, channels: seq<Channel>, old': string, new': string, r: string, model: string)
  {
    Candidates(Snapshot(CascadeChannels(d, channels, old', new')), model, RenameRef(r, old', new')) ==
    Mapped(Candidates(Snapshot(channels), model, r), Cascade(d, old', new'))
  }

  /** A rename keeps the candidates of all requests, in order, exactly when every active channel that lists the
      old name is found by the prefilter and the new name has no comma. */
  lemma RenameKeepsCandidatesExactly(d: Dialect, t: Tables, id: nat, name: string)
    requires Sound(t) && Renames(t, id, name)
    ensures var old', n := t.groups[id].name, TrimSpace(name);
            CandidatesStay(d, t.channels, old', n) <==> forall c :: c in Active(t.channels) ==> Follows(d, c, old', n)
  {
    var old', n := t.groups[id].name, TrimSpace(name);
    TrimSpaceTwice(name);
    RenamedNameIsNew(t, id, n);
    SnapshotIsSortedActive(t.channels);
    if forall c :: c in Active(t.channels) ==> Follows(d, c, old', n) {
      forall r, model | r != n && TrimSpace(r) == r ensures CandidatesStayFor(d, t.channels, old', n, r, model) {
        FollowersStay(d, t.channels, old', n, r, model);
      }
    } else {
      var c :| c in Active(t.channels) && !Follows(d, c, old', n);
      StragglerIsLost(d, t.channels, old', n, c);
    }
  }

  lemma FollowersStay(d: Dialect, channels: seq<Channel>, old': string, new': string, r: string, model: string)
    requires ProperName(old') && ProperName(new') && old' != new' && r != new' && TrimSpace(r) == r
    requires forall c :: c in channels ==> new' !in Pieces(c.group)
    requires forall c :: c in Active(channels) ==> Follows(d, c, old', new')
    ensures CandidatesStayFor(d, channels, old', new', r, model)
  {
    SnapshotIsSortedActive(channels);
    SnapshotCascaded(d, channels, old', new');
    ActiveMembers(channels);
    forall c | c in Snapshot(channels)
      ensures InGroup(Cascade(d, old', new')(c).group, RenameRef(r, old', new')) == InGroup(c.group, r)
    {
      FollowingKeepsRouting(d, c, r, old', new');
    }
    CandidatesMapped(Snapshot(channels), Cascade(d, old', new'), model, r, RenameRef(r, old', new'));
  }

  lemma StragglerIsLost(d: Dialect, channels: seq<Channel>, old': string, new': string, c: Channel)
    requires ProperName(old') && ProperName(new') && old' != new'
    requires forall x :: x in channels ==> new' !in Pieces(x.group)
    requires c in Active(channels) && !Follows(d, c, old', new')
    ensures !CandidatesStay(d, channels, old', new')
  {
    var model := TrimSpace(Split(c.models, ',')[0]);
    assert Split(c.models, ',')[0] in Split(c.models, ',') && Supports(c, model);
    var f, cs := Cascade(d, old', new'), Snapshot(channels);
    SnapshotIsSortedActive(channels);
    SnapshotCascaded(d, channels, old', new');
    ActiveMembers(channels);
    forall x | x in cs && Eligible(f(x), model, new') ensures Eligible(x, model, old') {
      LosingRouting(d, x, old', new');
    }
    LosingRouting(d, c, old', new');
    assert c in cs && Eligible(c, model, old') && !Eligible(f(c), model, new');
    CandidatesLost(cs, f, model, old', new');
    MappedAt(Candidates(cs, model, old'), f);
    assert !CandidatesStayFor(d, channels, old', new', old', model);
  }

  /** After such a rename every token sees the same candidates in the same order; only the spelling of the
      renamed group in their lists differs. */
  lemma RenameKeepsCandidates(d: Dialect, t: Tables, id: nat, name: string, token: nat, model: string)
    requires Sound(t) && Renames(t, id, name) && token in t.tokens
    requires forall c :: c in Active(t.channels) ==> Follows(d, c, t.groups[id].name, TrimSpace(name))
    ensures var t' := RenameGroup(d, t, id, name);
            Candidates(Snapshot(t'.channels), model, RouteGroup(t'.tokens[token].group)) ==
            Mapped(Candidates(Snapshot(t.channels), model, RouteGroup(t.tokens[token].group)),
                   Cascade(d, t.groups[id].name, TrimSpace(name)))
  {
    var old', n := t.groups[id].name, TrimSpace(name);
    var r := t.tokens[token].group;
    TrimSpaceTwice(name);
    RenamedNameIsNew(t, id, n);
    FollowersStay(d, t.channels, old', n, r, model);
    assert RouteGroup(r) == r && RouteGroup(RenameRef(r, old', n)) == RenameRef(r, old', n);
  }
}
