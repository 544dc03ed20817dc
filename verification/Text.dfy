/** Strings the way the Go standard library splits, joins, trims and searches them. */
module Text {

  /** The white space of Go's unicode.IsSpace, which strings.TrimSpace removes. */
  predicate IsSpace(c: char) {
    || c == ' ' || '\U{0009}' <= c <= '\U{000D}' || c == '\U{0085}' || c == '\U{00A0}'
    || c == '\U{1680}' || '\U{2000}' <= c <= '\U{200A}' || c == '\U{2028}' || c == '\U{2029}'
    || c == '\U{202F}' || c == '\U{205F}' || c == '\U{3000}'
  }

  function TrimLeft(s: string): string {
    if s != "" && IsSpace(s[0]) then TrimLeft(s[1..]) else s
  }

  function TrimRight(s: string): string {
    if s != "" && IsSpace(s[|s| - 1]) then TrimRight(s[..|s| - 1]) else s
  }

  function TrimSpace(s: string): string {
    TrimRight(TrimLeft(s))
  }

  /** strings.Split for a one-character separator: always at least one piece. */
  function Split(s: string, sep: char): (parts: seq<string>)
    ensures |parts| >= 1
  {
    if s == "" then [""]
    else
      var rest := Split(s[1..], sep);
      if s[0] == sep then [""] + rest else [[s[0]] + rest[0]] + rest[1..]
  }

  function Join(parts: seq<string>, sep: char): string {
    if |parts| == 0 then ""
    else if |parts| == 1 then parts[0]
    else parts[0] + [sep] + Join(parts[1..], sep)
  }

  /** The trimmed elements of a comma-separated list. */
  function Pieces(list: string): set<string> {
    set p | p in Split(list, ',') :: TrimSpace(p)
  }

  function Last<T>(s: seq<T>): T
    requires |s| >= 1
  {
    s[|s| - 1]
  }

  function Init<T>(s: seq<T>): seq<T>
    requires |s| >= 1
  {
    s[..|s| - 1]
  }

  lemma AppendAssociates<T>(a: seq<T>, b: seq<T>, c: seq<T>)
    ensures a + (b + c) == (a + b) + c
  {
  }

  /** Splitting loses nothing. */
  lemma {:induction false} JoinSplit(s: string, sep: char)
    ensures Join(Split(s, sep), sep) == s
  {
    if s != "" {
      JoinSplit(s[1..], sep);
      var rest := Split(s[1..], sep);
      assert s == [s[0]] + s[1..];
      if s[0] == sep {
        assert ([""] + rest)[1..] == rest;
      } else {
        assert Split(s, sep)[1..] == rest[1..];
      }
    }
  }

  lemma {:induction false} SplitPiecesHaveNoSeparator(s: string, sep: char)
    ensures forall p :: p in Split(s, sep) ==> sep !in p
  {
    if s != "" {
      SplitPiecesHaveNoSeparator(s[1..], sep);
    }
  }

  lemma {:induction false} SplitWithoutSeparator(s: string, sep: char)
    requires sep !in s
    ensures Split(s, sep) == [s]
  {
    if s != "" {
      SplitWithoutSeparator(s[1..], sep);
      assert s == [s[0]] + s[1..];
    }
  }

  /** Split of a non-empty text, by its first character. */
  lemma SplitStep(c: char, t: string, sep: char)
    ensures Split([c] + t, sep) ==
            if c == sep then [""] + Split(t, sep) else [[c] + Split(t, sep)[0]] + Split(t, sep)[1..]
  {
  }

  /** Appending text only changes the last, unfinished piece. */
  lemma {:induction false} SplitAppend(a: string, b: string, sep: char)
    ensures Split(a + b, sep) == Init(Split(a, sep)) + Split(Last(Split(a, sep)) + b, sep)
  {
    if a == "" {
      assert a + b == b && "" + b == b;
      assert Split(a, sep) == [""];
      assert Init([""]) + Split("" + b, sep) == Split(b, sep);
    } else {
      var c, t := a[0], a[1..];
      assert a == [c] + t && a + b == [c] + (t + b);
      SplitStep(c, t, sep);
      SplitStep(c, t + b, sep);
      SplitAppend(t, b, sep);
      PrependSplit(c, Split(t, sep), b, sep);
    }
  }

  /** The inductive step of SplitAppend, over the pieces of the tail. */
  lemma PrependSplit(c: char, parts: seq<string>, b: string, sep: char)
    requires |parts| >= 1
    ensures var whole := Init(parts) + Split(Last(parts) + b, sep);
            var extended := if c == sep then [""] + parts else [[c] + parts[0]] + parts[1..];
            Init(extended) + Split(Last(extended) + b, sep) ==
            if c == sep then [""] + whole else [[c] + whole[0]] + whole[1..]
  {
    var last := Split(Last(parts) + b, sep);
    var whole := Init(parts) + last;
    if c == sep {
      var extended := [""] + parts;
      assert Last(extended) == Last(parts) && Init(extended) == [""] + Init(parts);
      assert Init(extended) + last == [""] + whole;
    } else if |parts| == 1 {
      SplitStep(c, parts[0] + b, sep);
      var extended := [[c] + parts[0]] + parts[1..];
      assert Last(extended) + b == [c] + (parts[0] + b);
      assert whole == last && Init(extended) == [];
    } else {
      var extended := [[c] + parts[0]] + parts[1..];
      assert Last(extended) == Last(parts);
      assert Init(extended) + last == [[c] + whole[0]] + whole[1..];
    }
  }

  /** A separator in the middle separates the two splits. */
  lemma SplitAtSeparator(a: string, b: string, sep: char)
    ensures Split(a + [sep] + b, sep) == Split(a, sep) + Split(b, sep)
  {
    var pieces := Split(a, sep);
    var last := Last(pieces);
    assert a + [sep] + b == a + ([sep] + b);
    SplitAppend(a, [sep] + b, sep);
    assert sep !in last by {
      SplitPiecesHaveNoSeparator(a, sep);
    }
    SplitCleanHead(last, b, sep);
    PutBackLast(pieces, Split(b, sep));
  }

  lemma PutBackLast<T>(s: seq<T>, more: seq<T>)
    requires |s| >= 1
    ensures Init(s) + ([Last(s)] + more) == s + more
  {
  }

  lemma {:induction false} SplitCleanHead(head: string, b: string, sep: char)
    requires sep !in head
    ensures Split(head + ([sep] + b), sep) == [head] + Split(b, sep)
  {
    if head == "" {
      assert head + ([sep] + b) == [sep] + b && ([sep] + b)[1..] == b;
    } else {
      SplitCleanHead(head[1..], b, sep);
      assert (head + ([sep] + b))[1..] == head[1..] + ([sep] + b);
      assert head == [head[0]] + head[1..];
    }
  }

  /** Text put in front of a text, up to its first separator, only lengthens its first piece. */
  lemma {:induction false} SplitPrefix(head: string, b: string, sep: char)
    requires sep !in head
    ensures Split(head + b, sep) == [head + Split(b, sep)[0]] + Split(b, sep)[1..]
  {
    var parts := Split(b, sep);
    if head == "" {
      assert head + b == b && "" + parts[0] == parts[0];
    } else {
      var c, t := head[0], head[1..];
      SplitPrefix(t, b, sep);
      assert head == [c] + t;
      AppendAssociates([c], t, b);
      SplitStep(c, t + b, sep);
      AppendAssociates([c], t, parts[0]);
      assert ([t + parts[0]] + parts[1..])[1..] == parts[1..];
    }
  }

  /** Pieces without separators survive joining and splitting. */
  lemma {:induction false} SplitJoin(parts: seq<string>, sep: char)
    requires parts != [] && forall p :: p in parts ==> sep !in p
    ensures Split(Join(parts, sep), sep) == parts
  {
    if |parts| == 1 {
      SplitWithoutSeparator(parts[0], sep);
    } else {
      SplitJoin(parts[1..], sep);
      SplitAtSeparator(parts[0], Join(parts[1..], sep), sep);
      SplitWithoutSeparator(parts[0], sep);
    }
  }

  lemma {:induction false} JoinAppend(a: seq<string>, b: seq<string>, sep: char)
    requires a != [] && b != []
    ensures Join(a + b, sep) == Join(a, sep) + [sep] + Join(b, sep)
  {
    if |a| == 1 {
      assert (a + b)[1..] == b;
    } else {
      assert (a + b)[1..] == a[1..] + b;
      JoinAppend(a[1..], b, sep);
    }
  }

  function Concat(parts: seq<string>): string {
    if parts == [] then "" else Concat(Init(parts)) + Last(parts)
  }

  /** The texts are put together in order. */
  lemma {:induction false} ConcatAppend(a: seq<string>, t: string, b: seq<string>)
    ensures Concat(a + [t] + b) == Concat(a) + t + Concat(b) && Concat([]) == ""
  {
    if b == [] {
      assert a + [t] + b == a + [t] && Init(a + [t]) == a;
      assert Concat(a) + t + "" == Concat(a) + t;
    } else {
      var before := a + [t] + Init(b);
      ConcatAppend(a, t, Init(b));
      assert a + [t] + b == before + [Last(b)] && Init(before + [Last(b)]) == before;
      AppendAssociates(Concat(a) + t, Concat(Init(b)), Last(b));
    }
  }

  /** Go's len of a string: its length in UTF-8. */
  function Utf8Length(s: string): nat {
    if s == "" then 0
    else (if s[0] < '\U{0080}' then 1 else if s[0] < '\U{0800}' then 2 else if s[0] < '\U{10000}' then 3 else 4)
         + Utf8Length(s[1..])
  }

  /** s.Contains: q occurs in s at position i. */
  predicate OccursAt(s: string, q: string, i: nat) {
    i + |q| <= |s| && s[i..i + |q|] == q
  }

  predicate Contains(s: string, q: string) {
    exists i: nat :: i <= |s| && OccursAt(s, q, i)
  }

  lemma {:induction false} TrimLeftShape(s: string)
    ensures |TrimLeft(s)| <= |s| && TrimLeft(s) == s[|s| - |TrimLeft(s)|..]
    ensures TrimLeft(s) != "" ==> !IsSpace(TrimLeft(s)[0])
    ensures |s| - |TrimLeft(s)| <= |s|
  {
    if s != "" && IsSpace(s[0]) {
      TrimLeftShape(s[1..]);
    }
  }

  lemma {:induction false} TrimRightShape(s: string)
    ensures TrimRight(s) <= s
    ensures TrimRight(s) != "" ==> !IsSpace(Last(TrimRight(s)))
  {
    if s != "" && IsSpace(s[|s| - 1]) {
      TrimRightShape(s[..|s| - 1]);
    }
  }

  /** A trimmed text is an occurrence in the original and has no space at either end. */
  lemma TrimSpaceShape(s: string)
    ensures Contains(s, TrimSpace(s))
    ensures TrimSpace(s) != "" ==> !IsSpace(TrimSpace(s)[0]) && !IsSpace(Last(TrimSpace(s)))
  {
    TrimLeftShape(s);
    TrimRightShape(TrimLeft(s));
    assert OccursAt(s, TrimSpace(s), |s| - |TrimLeft(s)|);
  }

  lemma TrimSpaceKeepsClean(s: string)
    requires forall c :: c in s ==> !IsSpace(c)
    ensures TrimSpace(s) == s
  {
  }

  /** Nothing but white space is cut off, in front or behind. */
  lemma {:induction false} TrimLeftCuts(s: string, i: nat)
    ensures i < |s| - |TrimLeft(s)| ==> IsSpace(s[i])
  {
    if s != "" && IsSpace(s[0]) && i > 0 {
      TrimLeftCuts(s[1..], i - 1);
    }
  }

  lemma {:induction false} TrimRightCuts(s: string, i: nat)
    ensures |TrimRight(s)| <= i < |s| ==> IsSpace(s[i])
  {
    if s != "" && IsSpace(s[|s| - 1]) {
      TrimRightCuts(s[..|s| - 1], i);
    }
  }

  /** Trimming twice is trimming once. */
  lemma TrimSpaceTwice(s: string)
    ensures TrimSpace(TrimSpace(s)) == TrimSpace(s)
  {
    TrimSpaceShape(s);
  }
}
