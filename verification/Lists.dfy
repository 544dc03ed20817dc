/** Comma-separated group lists: how their trimmed elements behave under joining, trimming,
    normalizing and renaming. */
module Lists {
  import opened Text

  function Trimmed(parts: seq<string>): set<string> {
    set p | p in parts :: TrimSpace(p)
  }

  /** The elements of several lists together. */
  function AllPieces(lists: seq<string>): set<string> {
    if lists == [] then {} else Pieces(lists[0]) + AllPieces(lists[1..])
  }

  lemma PiecesAtComma(a: string, b: string)
    ensures Pieces(a + [','] + b) == Pieces(a) + Pieces(b)
  {
    SplitAtSeparator(a, b, ',');
  }

  /** Joining lists with commas unites their elements. */
  lemma {:induction false} PiecesOfJoin(lists: seq<string>)
    requires lists != []
    ensures Pieces(Join(lists, ',')) == AllPieces(lists)
  {
    if |lists| == 1 {
      assert lists[1..] == [];
    } else {
      PiecesOfJoin(lists[1..]);
      PiecesAtComma(lists[0], Join(lists[1..], ','));
    }
  }

  /** An element without a comma is a list of its own. */
  lemma PiecesOfElement(e: string)
    requires ',' !in e
    ensures Pieces(e) == {TrimSpace(e)}
  {
    SplitWithoutSeparator(e, ',');
  }

  /** No element of a list holds a comma. */
  lemma PiecesHaveNoComma(list: string)
    ensures forall p :: p in Pieces(list) ==> ',' !in p
  {
    SplitPiecesHaveNoSeparator(list, ',');
    forall p | p in Pieces(list) ensures ',' !in p {
      var q :| q in Split(list, ',') && TrimSpace(q) == p;
      TrimSpaceKeepsOut(q, ',');
    }
  }

  lemma TrimSpaceKeepsOut(s: string, c: char)
    requires c !in s
    ensures c !in TrimSpace(s)
  {
    TrimSpaceShape(s);
    var i: nat :| i <= |s| && OccursAt(s, TrimSpace(s), i);
    assert TrimSpace(s) == s[i..i + |TrimSpace(s)|];
  }

  lemma PiecesAreTrimmed(list: string)
    ensures forall p :: p in Pieces(list) ==> TrimSpace(p) == p
  {
    forall p | p in Pieces(list) ensures TrimSpace(p) == p {
      var q :| q in Split(list, ',') && TrimSpace(q) == p;
      TrimSpaceTwice(q);
    }
  }

  /** A list contains the text of each of its elements. */
  lemma ListContainsPieces(list: string, p: string)
    requires p in Pieces(list)
    ensures Contains(list, p)
  {
    var q :| q in Split(list, ',') && TrimSpace(q) == p;
    SplitPieceOccurs(list, q);
    var i: nat :| i <= |list| && OccursAt(list, q, i);
    TrimSpaceShape(q);
    var k: nat :| k <= |q| && OccursAt(q, p, k);
    OccursInOccurrence(list, q, p, i, k);
  }

  lemma OccursInOccurrence(s: string, q: string, p: string, i: nat, k: nat)
    requires OccursAt(s, q, i) && OccursAt(q, p, k)
    ensures OccursAt(s, p, i + k)
  {
    forall x | 0 <= x < |p| ensures s[i + k..i + k + |p|][x] == p[x] {
      assert q[k..k + |p|][x] == q[k + x] && s[i..i + |q|][k + x] == s[i + k + x];
    }
  }

  lemma {:induction false} SplitPieceOccurs(list: string, q: string)
    requires q in Split(list, ',')
    ensures Contains(list, q)
  {
    if list == "" {
      assert OccursAt(list, q, 0);
    } else {
      var rest := Split(list[1..], ',');
      SplitFirstIsPrefix(list);
      if q == Split(list, ',')[0] {
        assert OccursAt(list, q, 0);
      } else {
        assert q in rest;
        SplitPieceOccurs(list[1..], q);
        var i: nat :| i <= |list[1..]| && OccursAt(list[1..], q, i);
        OccursInOccurrence(list, list[1..], q, 1, i);
      }
    }
  }

  lemma {:induction false} SplitFirstIsPrefix(list: string)
    ensures Split(list, ',')[0] <= list
  {
    if list != "" {
      SplitFirstIsPrefix(list[1..]);
    }
  }

  /* ---------------------------------------------------------------- trimming a whole list */

  lemma SpaceBefore(c: char, t: string)
    requires IsSpace(c)
    ensures Pieces([c] + t) == Pieces(t)
  {
    SplitStep(c, t, ',');
    var parts := Split(t, ',');
    assert TrimLeft([c] + parts[0]) == TrimLeft(parts[0]) by {
      assert ([c] + parts[0])[1..] == parts[0];
    }
    assert parts == [parts[0]] + parts[1..];
    assert Trimmed([[c] + parts[0]] + parts[1..]) == {TrimSpace([c] + parts[0])} + Trimmed(parts[1..]);
    assert Trimmed([parts[0]] + parts[1..]) == {TrimSpace(parts[0])} + Trimmed(parts[1..]);
  }

  lemma {:induction false} TrimLeftAppendSpace(s: string, c: char)
    requires IsSpace(c)
    ensures TrimLeft(s + [c]) == if TrimLeft(s) == "" then "" else TrimLeft(s) + [c]
  {
    if s == "" {
      assert s + [c] == [c];
    } else if IsSpace(s[0]) {
      assert (s + [c])[1..] == s[1..] + [c];
      TrimLeftAppendSpace(s[1..], c);
    }
  }

  lemma TrimSpaceAppendSpace(s: string, c: char)
    requires IsSpace(c)
    ensures TrimSpace(s + [c]) == TrimSpace(s)
  {
    TrimLeftAppendSpace(s, c);
    var t := TrimLeft(s);
    if t != "" {
      assert (t + [c])[..|t|] == t;
    }
  }

  lemma SpaceAfter(t: string, c: char)
    requires IsSpace(c)
    ensures Pieces(t + [c]) == Pieces(t)
  {
    var parts := Split(t, ',');
    var last := Last(parts);
    SplitAppend(t, [c], ',');
    SplitPiecesHaveNoSeparator(t, ',');
    SplitWithoutSeparator(last + [c], ',');
    TrimSpaceAppendSpace(last, c);
    assert parts == Init(parts) + [last];
    SameTrimmed(Init(parts), last, last + [c]);
  }

  lemma SameTrimmed(parts: seq<string>, a: string, b: string)
    requires TrimSpace(a) == TrimSpace(b)
    ensures Trimmed(parts + [a]) == Trimmed(parts + [b])
  {
  }

  lemma {:induction false} PiecesOfTrimLeft(s: string)
    ensures Pieces(TrimLeft(s)) == Pieces(s)
  {
    if s != "" && IsSpace(s[0]) {
      PiecesOfTrimLeft(s[1..]);
      SpaceBefore(s[0], s[1..]);
      assert s == [s[0]] + s[1..];
    }
  }

  lemma {:induction false} PiecesOfTrimRight(s: string)
    ensures Pieces(TrimRight(s)) == Pieces(s)
  {
    if s != "" && IsSpace(s[|s| - 1]) {
      PiecesOfTrimRight(s[..|s| - 1]);
      SpaceAfter(s[..|s| - 1], s[|s| - 1]);
      assert s == s[..|s| - 1] + [s[|s| - 1]];
    }
  }

  /** Trimming a list as a whole changes no element. */
  lemma PiecesOfTrimSpace(s: string)
    ensures Pieces(TrimSpace(s)) == Pieces(s)
  {
    PiecesOfTrimLeft(s);
    PiecesOfTrimRight(TrimLeft(s));
  }

  /* ---------------------------------------------------------------- normalizing */

  /** The non-empty trimmed elements, in order. */
  function Kept(parts: seq<string>): seq<string> {
    if parts == [] then []
    else Kept(Init(parts)) + (if TrimSpace(Last(parts)) == "" then [] else [TrimSpace(Last(parts))])
  }

  function NormalizeGroupList(s: string): string {
    var kept := Kept(Split(s, ','));
    if kept == [] then "default" else Join(kept, ',')
  }

  method NormalizeList(s: string) returns (r: string)
    ensures r == NormalizeGroupList(s)
  {
    var parts := Split(s, ',');
    var out := [];
    for i := 0 to |parts|
      invariant out == Kept(parts[..i])
    {
      assert Init(parts[..i + 1]) == parts[..i];
      var g := TrimSpace(parts[i]);
      if g != "" {
        out := out + [g];
      }
    }
    assert parts[..|parts|] == parts;
    r := if |out| == 0 then "default" else Join(out, ',');
  }

  lemma {:induction false} KeptMembers(parts: seq<string>)
    ensures forall p :: p in Kept(parts) <==> p != "" && p in Trimmed(parts)
  {
    if parts != [] {
      KeptMembers(Init(parts));
      assert parts == Init(parts) + [Last(parts)];
      assert Trimmed(parts) == Trimmed(Init(parts)) + {TrimSpace(Last(parts))};
    }
  }

  /** They are kept element by element, in order. */
  lemma {:induction false} KeptAppend(a: seq<string>, x: string, b: seq<string>)
    ensures Kept(a + [x] + b) == Kept(a) + (if TrimSpace(x) == "" then [] else [TrimSpace(x)]) + Kept(b)
    ensures Kept([]) == []
  {
    if b == [] {
      assert a + [x] + b == a + [x];
      LastKept(a, x);
    } else {
      var before, last := a + [x] + Init(b), Last(b);
      KeptAppend(a, x, Init(b));
      assert a + [x] + b == before + [last];
      LastKept(before, last);
      AppendAssociates(Kept(a) + (if TrimSpace(x) == "" then [] else [TrimSpace(x)]), Kept(Init(b)),
                       if TrimSpace(last) == "" then [] else [TrimSpace(last)]);
    }
  }

  lemma LastKept(a: seq<string>, x: string)
    ensures Kept(a + [x]) == Kept(a) + if TrimSpace(x) == "" then [] else [TrimSpace(x)]
  {
    assert Init(a + [x]) == a;
  }

  /** The normalised list has the kept elements, in order, and is its own normal form. */
  lemma NormalizedInOrder(s: string)
    ensures Kept(Split(s, ',')) != [] ==> Split(NormalizeGroupList(s), ',') == Kept(Split(s, ','))
    ensures Kept(Split(s, ',')) == [] ==> NormalizeGroupList(s) == "default"
    ensures NormalizeGroupList(NormalizeGroupList(s)) == NormalizeGroupList(s)
  {
    var kept := Kept(Split(s, ','));
    KeptElements(s);
    if kept != [] {
      JoinedIsNormal(kept);
    } else {
      var name := "default";
      assert TrimSpace(name) == name;
      JoinedIsNormal([name]);
    }
  }

  lemma KeptElements(s: string)
    ensures forall p :: p in Kept(Split(s, ',')) ==> Normal(p)
  {
    KeptMembers(Split(s, ','));
    PiecesHaveNoComma(s);
    PiecesAreTrimmed(s);
    assert forall p :: p in Kept(Split(s, ',')) ==> p != "" && p in Pieces(s);
  }

  /** An element that normalising leaves as it is. */
  predicate Normal(p: string) {
    p != "" && TrimSpace(p) == p && ',' !in p
  }

  lemma JoinedIsNormal(kept: seq<string>)
    requires kept != [] && forall p :: p in kept ==> Normal(p)
    ensures Split(Join(kept, ','), ',') == kept && NormalizeGroupList(Join(kept, ',')) == Join(kept, ',')
  {
    SplitJoin(kept, ',');
    KeptOfKept(kept);
  }

  lemma {:induction false} KeptOfKept(kept: seq<string>)
    requires forall i :: 0 <= i < |kept| ==> Normal(kept[i])
    ensures Kept(kept) == kept
  {
    if kept != [] {
      KeptOfKept(Init(kept));
      OneMoreNormal(Init(kept), Last(kept), kept);
    }
  }

  lemma OneMoreNormal(before: seq<string>, last: string, kept: seq<string>)
    requires Normal(last) && Kept(before) == before && kept == before + [last]
    ensures Kept(kept) == kept
  {
    LastKept(before, last);
  }

  lemma {:induction false} AllPiecesOfElements(es: seq<string>)
    requires forall e :: e in es ==> ',' !in e && TrimSpace(e) == e
    ensures AllPieces(es) == set e | e in es
  {
    if es != [] {
      AllPiecesOfElements(es[1..]);
      PiecesOfElement(es[0]);
      assert es == [es[0]] + es[1..];
    }
  }

  /** Normalizing keeps exactly the non-empty elements; an empty list becomes the default group. */
  lemma PiecesOfNormalized(s: string)
    ensures Pieces(NormalizeGroupList(s)) ==
            if Pieces(s) <= {""} then {"default"} else Pieces(s) - {""}
  {
    var kept := Kept(Split(s, ','));
    KeptMembers(Split(s, ','));
    assert forall p :: p in kept <==> p != "" && p in Pieces(s);
    if kept == [] {
      PiecesOfElement("default");
      assert TrimSpace("default") == "default";
      forall p | p in Pieces(s) ensures p == "" {
        assert p !in kept;
      }
    } else {
      assert kept[0] in kept;
      PiecesOfJoinKept(s, kept);
    }
  }

  lemma PiecesOfJoinKept(s: string, kept: seq<string>)
    requires kept != [] && forall p :: p in kept <==> p != "" && p in Pieces(s)
    ensures Pieces(Join(kept, ',')) == Pieces(s) - {""}
  {
    PiecesHaveNoComma(s);
    PiecesAreTrimmed(s);
    PiecesOfJoin(kept);
    AllPiecesOfElements(kept);
  }

  /* ---------------------------------------------------------------- renaming */

  function Renamed(parts: seq<string>, old': string, new': string): seq<string> {
    seq(|parts|, i requires 0 <= i < |parts| => if TrimSpace(parts[i]) == old' then new' else parts[i])
  }

  /** The rewritten list: elements equal to the old name, spaces aside, give way to the new one. */
  function RewriteList(list: string, old': string, new': string): string {
    Join(Renamed(Split(list, ','), old', new'), ',')
  }

  method RenameInList(list: string, old': string, new': string) returns (groups: seq<string>, changed: bool)
    ensures groups == Renamed(Split(list, ','), old', new')
    ensures changed <==> old' in Pieces(list)
  {
    groups := Split(list, ',');
    ghost var parts := groups;
    changed := false;
    for i := 0 to |groups|
      invariant |groups| == |parts|
      invariant forall k :: 0 <= k < i ==> groups[k] == if TrimSpace(parts[k]) == old' then new' else parts[k]
      invariant forall k :: i <= k < |parts| ==> groups[k] == parts[k]
      invariant changed ==> old' in Trimmed(parts)
      invariant !changed ==> forall k :: 0 <= k < i ==> TrimSpace(parts[k]) != old'
    {
      assert groups[i] == parts[i];
      if TrimSpace(groups[i]) == old' {
        assert parts[i] in parts;
        groups := groups[i := new'];
        changed := true;
      }
    }
  }

  lemma RenamedFirst(parts: seq<string>, old': string, new': string)
    requires parts != []
    ensures Trimmed(parts) == {TrimSpace(parts[0])} + Trimmed(parts[1..])
    ensures AllPieces(Renamed(parts, old', new')) ==
            Pieces(if TrimSpace(parts[0]) == old' then new' else parts[0]) + AllPieces(Renamed(parts[1..], old', new'))
  {
    assert Renamed(parts, old', new')[1..] == Renamed(parts[1..], old', new');
    assert parts == [parts[0]] + parts[1..];
  }

  lemma {:induction false} RenamedPieces(parts: seq<string>, old': string, new': string)
    requires forall p :: p in parts ==> ',' !in p
    ensures AllPieces(Renamed(parts, old', new')) ==
            (Trimmed(parts) - {old'}) + (if old' in Trimmed(parts) then Pieces(new') else {})
  {
    if parts != [] {
      RenamedPieces(parts[1..], old', new');
      RenamedFirst(parts, old', new');
      PiecesOfElement(parts[0]);
    }
  }

  /** What renaming does to the elements of a list, whatever the new name: the old element goes, and
      where it was the elements of the new name come in. */
  lemma PiecesOfRewrite(list: string, old': string, new': string)
    ensures Pieces(RewriteList(list, old', new')) ==
            (Pieces(list) - {old'}) + (if old' in Pieces(list) then Pieces(new') else {})
  {
    SplitPiecesHaveNoSeparator(list, ',');
    RenamedPieces(Split(list, ','), old', new');
    PiecesOfJoin(Renamed(Split(list, ','), old', new'));
  }

  /** A new name without a comma takes the places of the old one; all other elements stay where they are, spaces
      included. */
  lemma RewriteInPlace(list: string, old': string, new': string, i: nat)
    requires ',' !in new' && i < |Split(list, ',')|
    ensures var before, after := Split(list, ','), Split(RewriteList(list, old', new'), ',');
            |after| == |before| && after[i] == if TrimSpace(before[i]) == old' then new' else before[i]
  {
    var before := Split(list, ',');
    SplitPiecesHaveNoSeparator(list, ',');
    forall p | p in Renamed(before, old', new') ensures ',' !in p {
      var k :| 0 <= k < |before| && Renamed(before, old', new')[k] == p;
      assert before[k] in before;
    }
    SplitJoin(Renamed(before, old', new'), ',');
  }

  /** A list without the old name is left as it is, to the character. */
  lemma RewriteUnlisted(list: string, old': string, new': string)
    requires old' !in Pieces(list)
    ensures RewriteList(list, old', new') == list
  {
    var parts := Split(list, ',');
    forall i | 0 <= i < |parts| ensures TrimSpace(parts[i]) != old' {
      assert parts[i] in parts;
    }
    assert Renamed(parts, old', new') == parts;
    JoinSplit(list, ',');
  }
}
