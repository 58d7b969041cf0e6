/** Splitting a chain of validator calls into its calls, as in
    generator/src/classes/extendedDMMFField/extendedDMMFFieldValidatorPattern.ts. */
module Splitter {

  predicate IsWordChar(c: char) {
    'a' <= c <= 'z' || 'A' <= c <= 'Z' || '0' <= c <= '9' || c == '_'
  }

  const SMALL := "abcdefghijklmnopqrstuvwxyz"
  const CAPITAL := "ABCDEFGHIJKLMNOPQRSTUVWXYZ"
  const DIGITS := "0123456789"

  lemma SmallLetters(c: char)
    ensures 'a' <= c <= 'z' <==> c in SMALL
  {
    if 'a' <= c <= 'z' { assert SMALL[c as int - 'a' as int] == c; }
  }

  lemma CapitalLetters(c: char)
    ensures 'A' <= c <= 'Z' <==> c in CAPITAL
  {
    if 'A' <= c <= 'Z' { assert CAPITAL[c as int - 'A' as int] == c; }
  }

  /** The characters of a key: letters, digits and the underscore. */
  lemma WordCharsAre(c: char)
    ensures IsWordChar(c) <==> c in SMALL || c in CAPITAL || c in DIGITS || c == '_'
  {
    SmallLetters(c);
    CapitalLetters(c);
    if '0' <= c <= '9' { assert DIGITS[c as int - '0' as int] == c; }
  }

  function Weight(c: char): int {
    if c == '(' then 1 else if c == ')' then -1 else 0
  }

  /** Opening minus closing parentheses. */
  function Depth(s: string): int {
    if s == [] then 0 else Depth(s[..|s| - 1]) + Weight(s[|s| - 1])
  }

  /** Where the word characters at the end of the text begin. */
  function RunStart(s: string): (r: nat)
    ensures r <= |s|
  {
    if s == [] || !IsWordChar(s[|s| - 1]) then |s| else RunStart(s[..|s| - 1])
  }

  /** The index at which `\.\w+$` matches, and 0 when it does not match or matches at the front. */
  function MatchIndex(s: string): (r: nat)
    ensures 0 < r ==> r < |s|
  {
    var start := RunStart(s);
    if 1 < start < |s| && s[start - 1] == '.' then start - 1 else 0
  }

  /** A dot and then word characters up to the end. */
  predicate EndsInKey(s: string, p: nat) {
    p + 1 < |s| && s[p] == '.' && forall i :: p < i < |s| ==> IsWordChar(s[i])
  }

  lemma {:induction false} RunIsMaximal(s: string, i: nat)
    requires i < |s|
    ensures RunStart(s) <= i ==> IsWordChar(s[i])
    ensures RunStart(s) == i + 1 ==> !IsWordChar(s[i])
  {
    if IsWordChar(s[|s| - 1]) && i < |s| - 1 { RunIsMaximal(s[..|s| - 1], i); }
  }

  lemma {:induction false} RunReaches(s: string, p: nat)
    requires EndsInKey(s, p)
    ensures RunStart(s) == p + 1
  {
    if p + 2 == |s| {
      assert !IsWordChar(s[..|s| - 1][p]);
    } else {
      RunReaches(s[..|s| - 1], p);
    }
  }

  /** The search finds exactly the key at the end of the text. */
  lemma MatchIsTheKey(s: string, p: nat)
    requires 0 < p
    ensures MatchIndex(s) == p <==> EndsInKey(s, p)
  {
    if EndsInKey(s, p) {
      RunReaches(s, p);
    }
    if MatchIndex(s) == p {
      forall i | p < i < |s| ensures IsWordChar(s[i]) { RunIsMaximal(s, i); }
    }
  }

  /** What the character after `s` adds to the split positions. */
  function SplitAt(s: string, c: char): seq<nat> {
    if Depth(s) == 0 && !IsWordChar(c) && MatchIndex(s) > 0 then [MatchIndex(s)] else []
  }

  function Splits(s: string): (r: seq<nat>)
    ensures r != [] && r[0] == 0
  {
    if s == [] then [0] else Splits(s[..|s| - 1]) + SplitAt(s[..|s| - 1], s[|s| - 1])
  }

  method GetSplitIndices(s: string) returns (splitIndices: seq<nat>)
    ensures splitIndices == Splits(s)
  {
    splitIndices := [0];
    var depth := 0;
    for idx := 0 to |s|
      invariant splitIndices == Splits(s[..idx]) && depth == Depth(s[..idx])
    {
      assert s[..idx + 1][..idx] == s[..idx];
      var c := s[idx];
      if depth == 0 && !IsWordChar(c) {
        var splitPosition := MatchIndex(s[..idx]);
        if splitPosition != 0 {
          splitIndices := splitIndices + [splitPosition];
        }
      }
      if c == '(' {
        depth := depth + 1;
      }
      if c == ')' {
        depth := depth - 1;
      }
    }
    assert s[..|s|] == s;
  }

  // ---- Where it splits ----

  /** Before position e the text has a key that starts at p, outside all parentheses. */
  predicate SplitsThere(s: string, p: nat, e: nat) {
    0 < p < e < |s| && Depth(s[..p]) == 0 && !IsWordChar(s[e]) && EndsInKey(s[..e], p)
  }

  lemma {:induction false} KeyKeepsDepth(s: string, p: nat)
    requires EndsInKey(s, p)
    ensures Depth(s) == Depth(s[..p])
  {
    var front := s[..|s| - 1];
    assert front[..p] == s[..p];
    if p + 2 < |s| {
      KeyKeepsDepth(front, p);
    } else {
      assert front[..|front| - 1] == s[..p];
    }
  }

  lemma SplitAtIsThere(s: string, p: nat)
    requires s != [] && 0 < p
    ensures p in SplitAt(s[..|s| - 1], s[|s| - 1]) <==> SplitsThere(s, p, |s| - 1)
  {
    var front := s[..|s| - 1];
    MatchIsTheKey(front, p);
    if EndsInKey(front, p) {
      KeyKeepsDepth(front, p);
      assert front[..p] == s[..p];
    }
  }

  lemma SplitsThereInFront(s: string, p: nat, e: nat)
    requires s != [] && e < |s| - 1
    ensures SplitsThere(s[..|s| - 1], p, e) <==> SplitsThere(s, p, e)
  {
    var front := s[..|s| - 1];
    assert front[..e] == s[..e];
    if p <= e { assert front[..p] == s[..p]; }
  }

  /** A position other than the first is a split exactly when a key starts there at depth 0 and a
      character that is not part of a word follows the key. */
  lemma {:induction false} SplitsExactlyAtKeys(s: string, p: nat)
    requires 0 < p
    ensures p in Splits(s) <==> exists e: nat :: SplitsThere(s, p, e)
  {
    if s != [] {
      var front := s[..|s| - 1];
      SplitsExactlyAtKeys(front, p);
      SplitAtIsThere(s, p);
      forall e: nat | e < |s| - 1 ensures SplitsThere(front, p, e) <==> SplitsThere(s, p, e) {
        SplitsThereInFront(s, p, e);
      }
    }
  }

  predicate Increasing(r: seq<nat>) {
    forall i, j :: 0 <= i < j < |r| ==> r[i] < r[j]
  }

  /** Positions found so far come before the word at the end of the text. */
  lemma {:induction false} SplitsGrow(s: string)
    ensures Increasing(Splits(s))
    ensures forall i :: 0 <= i < |Splits(s)| ==> Splits(s)[i] <= |s|
    ensures forall i :: 0 <= i < |Splits(s)| && 0 < Splits(s)[i] ==> Splits(s)[i] + 1 < RunStart(s)
  {
    if s != [] {
      SplitsGrow(s[..|s| - 1]);
    }
  }

  // ---- The pieces ----

  predicate Cuts(r: seq<nat>, n: nat) {
    r != [] && r[0] == 0 && Increasing(r) && forall i :: 0 <= i < |r| ==> r[i] <= n
  }

  function Piece(s: string, r: seq<nat>, k: nat): string
    requires Cuts(r, |s|) && k < |r|
  {
    s[r[k]..if k + 1 < |r| then r[k + 1] else |s|]
  }

  function Pieces(s: string, r: seq<nat>): seq<string>
    requires Cuts(r, |s|)
  {
    seq(|r|, k requires 0 <= k < |r| => Piece(s, r, k))
  }

  function NonEmpty(pieces: seq<string>): seq<string> {
    if pieces == [] then []
    else NonEmpty(pieces[..|pieces| - 1]) + if pieces[|pieces| - 1] == "" then [] else [pieces[|pieces| - 1]]
  }

  function PatternList(s: string, r: seq<nat>): seq<string>
    requires Cuts(r, |s|)
  {
    NonEmpty(Pieces(s, r))
  }

  lemma SplitsAreCuts(s: string)
    ensures Cuts(Splits(s), |s|)
  {
    SplitsGrow(s);
  }

  function Split(s: string): seq<string> {
    SplitsAreCuts(s);
    PatternList(s, Splits(s))
  }

  function Joined(pieces: seq<string>): string {
    if pieces == [] then [] else Joined(pieces[..|pieces| - 1]) + pieces[|pieces| - 1]
  }

  lemma {:induction false} DroppingEmptyKeepsText(pieces: seq<string>)
    ensures Joined(NonEmpty(pieces)) == Joined(pieces)
  {
    if pieces != [] {
      var front, last := pieces[..|pieces| - 1], pieces[|pieces| - 1];
      DroppingEmptyKeepsText(front);
      if last == "" {
        assert NonEmpty(front) + [] == NonEmpty(front);
        assert Joined(front) + last == Joined(front);
      } else {
        assert (NonEmpty(front) + [last])[..|NonEmpty(front)|] == NonEmpty(front);
      }
    }
  }

  lemma {:induction false} PiecesCover(s: string, r: seq<nat>, n: nat)
    requires Cuts(r, |s|) && n <= |r|
    ensures Joined(Pieces(s, r)[..n]) == s[..if n < |r| then r[n] else |s|]
  {
    var pieces := Pieces(s, r);
    if n > 0 {
      PiecesCover(s, r, n - 1);
      assert pieces[..n][..n - 1] == pieces[..n - 1];
      assert s[..r[n - 1]] + Piece(s, r, n - 1) == s[..if n < |r| then r[n] else |s|];
    }
  }

  /** The pieces put together again are the text. */
  lemma PiecesJoinToText(s: string)
    ensures Joined(Split(s)) == s
  {
    var r := Splits(s);
    SplitsAreCuts(s);
    var pieces := Pieces(s, r);
    PiecesCover(s, r, |r|);
    assert pieces[..|r|] == pieces;
    DroppingEmptyKeepsText(pieces);
  }

  // ---- Chains of calls ----

  datatype Call = Call(key: string, args: string)

  /** Never more closing than opening parentheses, and as many in all. */
  predicate Balanced(s: string) {
    Depth(s) == 0 && forall i :: 0 <= i <= |s| ==> 0 <= Depth(s[..i])
  }

  predicate WellFormed(c: Call) {
    c.key != "" && (forall i :: 0 <= i < |c.key| ==> IsWordChar(c.key[i])) && Balanced(c.args)
  }

  predicate AllWellFormed(calls: seq<Call>) {
    calls == [] || (AllWellFormed(calls[..|calls| - 1]) && WellFormed(calls[|calls| - 1]))
  }

  function CallText(c: Call): string {
    "." + c.key + "(" + c.args + ")"
  }

  function Texts(calls: seq<Call>): seq<string> {
    if calls == [] then [] else Texts(calls[..|calls| - 1]) + [CallText(calls[|calls| - 1])]
  }

  lemma {:induction false} DepthAdds(s: string, t: string)
    ensures Depth(s + t) == Depth(s) + Depth(t)
  {
    if t == [] {
      assert s + t == s;
    } else {
      assert (s + t)[..|s + t| - 1] == s + t[..|t| - 1];
      DepthAdds(s, t[..|t| - 1]);
    }
  }

  /** A text whose next character neither belongs to a key nor follows one. */
  predicate Closed(s: string) {
    Depth(s) == 0 && (s == [] || !IsWordChar(s[|s| - 1]))
  }

  lemma OneMoreChar(s: string, c: char)
    ensures Splits(s + [c]) == Splits(s) + SplitAt(s, c) && Depth(s + [c]) == Depth(s) + Weight(c)
  {
    assert (s + [c])[..|s|] == s;
  }

  lemma {:induction false} KeyAddsNothing(s: string, key: string)
    requires Closed(s) && forall i :: 0 <= i < |key| ==> IsWordChar(key[i])
    ensures Splits(s + "." + key) == Splits(s) && Depth(s + "." + key) == 0
  {
    if key == [] {
      assert s + "." + key == s + ['.'];
      OneMoreChar(s, '.');
    } else {
      var front, c := key[..|key| - 1], key[|key| - 1];
      KeyAddsNothing(s, front);
      OneMoreChar(s + "." + front, c);
      assert s + "." + key == s + "." + front + [c];
    }
  }

  lemma {:induction false} ArgsAddNothing(s: string, args: string)
    requires Depth(s) == 1 && forall i :: 0 <= i <= |args| ==> 0 <= Depth(args[..i])
    ensures Splits(s + args) == Splits(s)
  {
    if args == [] {
      assert s + args == s;
    } else {
      var front, c := args[..|args| - 1], args[|args| - 1];
      forall i | 0 <= i <= |front| ensures 0 <= Depth(front[..i]) { assert front[..i] == args[..i]; }
      ArgsAddNothing(s, front);
      DepthAdds(s, front);
      assert front == args[..|front|];
      OneMoreChar(s + front, c);
      assert s + args == s + front + [c];
    }
  }

  lemma KeyIsFound(s: string, key: string, t: string)
    requires t == s + "." + key && key != "" && forall i :: 0 <= i < |key| ==> IsWordChar(key[i])
    ensures MatchIndex(t) == |s|
  {
    forall i | |s| < i < |t| ensures IsWordChar(t[i]) { assert t[i] == key[i - |s| - 1]; }
    assert EndsInKey(t, |s|);
    RunReaches(t, |s|);
  }

  lemma ParenthesisSplits(s: string, key: string, t: string)
    requires t == s + "." + key
    requires Closed(s) && key != "" && forall i :: 0 <= i < |key| ==> IsWordChar(key[i])
    ensures Splits(t + ['(']) == Splits(s) + (if s == [] then [] else [|s|])
    ensures Depth(t + ['(']) == 1
  {
    KeyAddsNothing(s, key);
    KeyIsFound(s, key, t);
    OneMoreChar(t, '(');
  }

  lemma ArgsAndEnd(t: string, args: string)
    requires Depth(t) == 1 && Balanced(args)
    ensures Splits(t + args + [')']) == Splits(t) && Depth(t + args + [')']) == 0
  {
    ArgsAddNothing(t, args);
    DepthAdds(t, args);
    OneMoreChar(t + args, ')');
  }

  /** One more call adds exactly one split position, where it starts. */
  lemma CallSplits(s: string, c: Call)
    requires Closed(s) && WellFormed(c)
    ensures Splits(s + CallText(c)) == Splits(s) + (if s == [] then [] else [|s|])
    ensures Closed(s + CallText(c))
  {
    var t := s + "." + c.key;
    ParenthesisSplits(s, c.key, t);
    ArgsAndEnd(t + ['('], c.args);
    CallTextEnds(s, c);
  }

  lemma CallTextEnds(s: string, c: Call)
    ensures s + CallText(c) == s + "." + c.key + ['('] + c.args + [')']
  {
  }

  lemma {:induction false} ChainIsClosed(calls: seq<Call>)
    requires AllWellFormed(calls)
    ensures Closed(Joined(Texts(calls)))
    ensures calls != [] ==> Joined(Texts(calls)) != []
  {
    if calls != [] {
      ChainIsClosed(calls[..|calls| - 1]);
      JoinedOneMore(Texts(calls[..|calls| - 1]), CallText(calls[|calls| - 1]));
      CallSplits(Joined(Texts(calls[..|calls| - 1])), calls[|calls| - 1]);
    }
  }

  lemma JoinedOneMore(pieces: seq<string>, p: string)
    ensures Joined(pieces + [p]) == Joined(pieces) + p
  {
    assert (pieces + [p])[..|pieces|] == pieces;
  }

  lemma NonEmptyOneMore(pieces: seq<string>, p: string)
    requires p != ""
    ensures NonEmpty(pieces + [p]) == NonEmpty(pieces) + [p]
  {
    assert (pieces + [p])[..|pieces|] == pieces;
  }

  lemma CutInTwo(s: string, t: string, r: seq<nat>, q: seq<nat>)
    requires Cuts(r, |s|) && q == r + [|s|] && Cuts(q, |s + t|)
    ensures Pieces(s + t, q) == Pieces(s, r) + [t]
  {
    var xs, ys := Pieces(s + t, q), Pieces(s, r);
    forall k | 0 <= k < |r| ensures xs[k] == ys[k] {
      assert q[k] == r[k] && q[k + 1] == if k + 1 < |r| then r[k + 1] else |s|;
      assert (s + t)[q[k]..q[k + 1]] == s[q[k]..q[k + 1]];
    }
    assert xs[|r|] == Piece(s + t, q, |r|) == t;
  }

  lemma OneMorePiece(s: string, t: string)
    requires t != [] && Splits(s + t) == Splits(s) + [|s|]
    ensures Split(s + t) == Split(s) + [t]
  {
    SplitsAreCuts(s);
    SplitsAreCuts(s + t);
    CutInTwo(s, t, Splits(s), Splits(s + t));
    NonEmptyOneMore(Pieces(s, Splits(s)), t);
  }

  /** Splitting a chain of `.key(args)` calls gives back exactly those calls. */
  lemma {:induction false} ChainSplitsIntoCalls(calls: seq<Call>)
    requires AllWellFormed(calls)
    ensures Split(Joined(Texts(calls))) == Texts(calls)
  {
    if calls == [] {
      NothingToSplit();
    } else {
      var front, c := calls[..|calls| - 1], calls[|calls| - 1];
      var s, t := Joined(Texts(front)), CallText(c);
      ChainSplitsIntoCalls(front);
      ChainIsClosed(front);
      JoinedOneMore(Texts(front), t);
      CallSplits(s, c);
      if front == [] {
        assert s + t == t;
        FirstCall(t);
      } else {
        OneMorePiece(s, t);
      }
    }
  }

  lemma NothingToSplit()
    ensures Split([]) == []
  {
    SplitsAreCuts([]);
    assert Pieces([], [0]) == [[]];
  }

  lemma FirstCall(t: string)
    requires t != [] && Splits(t) == [0]
    ensures Split(t) == [t]
  {
    SplitsAreCuts(t);
    var pieces := Pieces(t, Splits(t));
    assert pieces[0] == Piece(t, Splits(t), 0) == t[0..|t|] == t;
    var none: seq<string> := [];
    assert pieces == none + [t] == [t];
    NonEmptyOneMore(none, t);
  }
}
