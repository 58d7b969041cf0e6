/** Last-write-wins on columns and add-wins on tags, as in clients/typescript/src/satellite/merge.ts. */
module Merge {
  import opened Types
  import opened Sets

  /** `a < b` in JavaScript's order on strings: by the first difference, then by length. */
  predicate Less(a: string, b: string) {
    b != "" && (a == "" || a[0] < b[0] || (a[0] == b[0] && Less(a[1..], b[1..])))
  }

  lemma {:induction false} LessIsStrictOrder(a: string, b: string, c: string)
    ensures !(Less(a, b) && Less(b, a))
    ensures Less(a, b) && Less(b, c) ==> Less(a, c)
    ensures a != b ==> Less(a, b) || Less(b, a)
  {
    if a != "" && b != "" {
      LessIsStrictOrder(a[1..], b[1..], if c == "" then "" else c[1..]);
      assert a[1..] == b[1..] && a[0] == b[0] ==> a == b by {
        assert a == [a[0]] + a[1..] && b == [b[0]] + b[1..];
      }
    }
  }

  /** `a` comes before `b` because of what they have at `n`, where they differ first. */
  predicate BeforeAt(a: string, b: string, n: nat) {
    n <= |a| && n < |b| && a[..n] == b[..n] && (n == |a| || a[n] < b[n])
  }

  lemma {:induction false} LessIsBeforeAt(a: string, b: string, n: nat)
    requires BeforeAt(a, b, n)
    ensures Less(a, b)
  {
    if n > 0 {
      assert a[0] == a[..n][0] == b[..n][0] == b[0];
      assert a[1..][..n - 1] == a[..n][1..] && b[1..][..n - 1] == b[..n][1..];
      LessIsBeforeAt(a[1..], b[1..], n - 1);
    }
  }

  /** Whether a write at (`t`, `o`) is later than one at (`t'`, `o'`): time first, origin second. */
  predicate Later(t: int, o: string, t': int, o': string) {
    t > t' || (t == t' && Less(o', o))
  }

  /** The first cell wins only when it is strictly later. */
  function Winner(firstOrigin: string, first: Cell, secondOrigin: string, second: Cell): Cell {
    if Later(first.timestamp, firstOrigin, second.timestamp, secondOrigin) then first else second
  }

  /** The declared result of a merge: each column of either side, with the later write. */
  function LastWriteWins(firstOrigin: string, first: Changes, secondOrigin: string, second: Changes): Changes {
    map c | c in first.Keys + second.Keys ::
      if c !in first then second[c]
      else if c !in second then first[c]
      else Winner(firstOrigin, first[c], secondOrigin, second[c])
  }

  method MergeChangesLastWriteWins(
    firstOrigin: string, first: Changes, secondOrigin: string, second: Changes) returns (acc: Changes)
    ensures acc == LastWriteWins(firstOrigin, first, secondOrigin, second)
  {
    acc := map[];
    var keys := first.Keys + second.Keys;
    while keys != {}
      invariant keys <= first.Keys + second.Keys
      invariant acc.Keys == first.Keys + second.Keys - keys
      invariant forall c :: c in acc ==> acc[c] == LastWriteWins(firstOrigin, first, secondOrigin, second)[c]
      decreases keys
    {
      var c :| c in keys;
      if c !in first {
        acc := acc[c := second[c]];
      } else if c !in second {
        acc := acc[c := first[c]];
      } else if first[c].timestamp == second[c].timestamp {
        acc := acc[c := if Less(secondOrigin, firstOrigin) then first[c] else second[c]];
      } else {
        acc := acc[c := if first[c].timestamp > second[c].timestamp then first[c] else second[c]];
      }
      keys := keys - {c};
    }
  }

  /** Every merged column comes from one side and no side has a later write of it. */
  lemma MergeIsMaximum(o1: string, a: Changes, o2: string, b: Changes, c: string)
    requires c in a || c in b
    ensures var m := LastWriteWins(o1, a, o2, b);
      c in m &&
      ((c in a && m[c] == a[c] && (c in b ==> !Later(b[c].timestamp, o2, a[c].timestamp, o1))) ||
       (c in b && m[c] == b[c] && (c in a ==> !Later(a[c].timestamp, o1, b[c].timestamp, o2))))
  {
    LessIsStrictOrder(o1, o2, o1);
  }

  /** Of two writes at one time that of the greater origin wins, compared at their first difference. */
  lemma TieGoesToGreaterOrigin(o1: string, a: Changes, o2: string, b: Changes, c: string, n: nat)
    requires c in a && c in b && a[c].timestamp == b[c].timestamp
    ensures BeforeAt(o2, o1, n) ==> LastWriteWins(o1, a, o2, b)[c] == a[c]
    ensures BeforeAt(o1, o2, n) ==> LastWriteWins(o1, a, o2, b)[c] == b[c]
  {
    LessIsStrictOrder(o1, o2, o1);
    if BeforeAt(o2, o1, n) {
      LessIsBeforeAt(o2, o1, n);
    } else if BeforeAt(o1, o2, n) {
      LessIsBeforeAt(o1, o2, n);
    }
  }

  /** The two ties that a merge cannot order are a tie within one origin with two different cells. */
  predicate TiesAgree(a: Changes, b: Changes) {
    forall c :: c in a && c in b && a[c].timestamp == b[c].timestamp ==> a[c] == b[c]
  }

  /** Swapping the sides changes nothing exactly when the origins differ or all ties agree. */
  lemma MergeCommutes(o1: string, a: Changes, o2: string, b: Changes)
    ensures LastWriteWins(o1, a, o2, b) == LastWriteWins(o2, b, o1, a) <==> o1 != o2 || TiesAgree(a, b)
  {
    LessIsStrictOrder(o1, o2, o1);
    var m, m' := LastWriteWins(o1, a, o2, b), LastWriteWins(o2, b, o1, a);
    assert m.Keys == m'.Keys;
    if o1 != o2 || TiesAgree(a, b) {
      assert forall c :: c in m ==> m[c] == m'[c];
    } else {
      var c :| c in a && c in b && a[c].timestamp == b[c].timestamp && a[c] != b[c];
      assert m[c] == b[c] && m'[c] == a[c];
    }
  }

  lemma MergeIsIdempotent(o1: string, o2: string, a: Changes)
    ensures LastWriteWins(o1, a, o2, a) == a
  {
  }

  /** Under one origin merges may be regrouped, so a log may be folded in pieces. */
  lemma MergeAssociates(o: string, a: Changes, b: Changes, c: Changes)
    ensures LastWriteWins(o, LastWriteWins(o, a, o, b), o, c) == LastWriteWins(o, a, o, LastWriteWins(o, b, o, c))
  {
    LessIsStrictOrder(o, o, o);
    var l := LastWriteWins(o, LastWriteWins(o, a, o, b), o, c);
    var r := LastWriteWins(o, a, o, LastWriteWins(o, b, o, c));
    assert l.Keys == r.Keys;
    assert forall k :: k in l ==> l[k] == r[k];
  }

  /** The tags that stay on a row: incoming tags not seen locally, and the local tag if there is one. */
  function CalculateTags(tag: Option<Tag>, tags: seq<Tag>, clear: seq<Tag>): seq<Tag> {
    match tag
    case None => Difference(tags, clear)
    case Some(t) => Union([t], Difference(tags, clear))
  }

  function MergeOpTags(local: EntryChanges, remote: ShadowChanges): seq<Tag> {
    CalculateTags(local.tag, remote.tags, local.clearTags)
  }

  /** Nothing is left exactly when the local side deleted and had seen every incoming tag. */
  lemma TagsSurvive(local: EntryChanges, remote: ShadowChanges)
    ensures MergeOpTags(local, remote) == [] <==>
            local.tag.None? && forall t :: t in remote.tags ==> t in local.clearTags
    ensures forall t :: t in MergeOpTags(local, remote) <==>
            local.tag == Some(t) || (t in remote.tags && t !in local.clearTags)
  {
    var m := MergeOpTags(local, remote);
    if local.tag.Some? {
      assert local.tag.value in m;
    } else if m != [] {
      assert m[0] in m;
    }
  }
}
