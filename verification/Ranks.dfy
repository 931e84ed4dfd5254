/** Priority queues over totally ordered entries: what comes out does not depend on how the entries
    were put in. A rank is a tuple of integer sequences, compared component by component. */
module Ranks {
  type Rank = seq<seq<int>>

  /** Lexicographic order, a prefix before its extensions (std::string's operator<). */
  predicate Lex(a: seq<int>, b: seq<int>) {
    if b == [] then false
    else if a == [] then true
    else if a[0] != b[0] then a[0] < b[0]
    else Lex(a[1..], b[1..])
  }

  /** At position k they differ for the first time, and there a comes first or ends. */
  predicate LessAt(a: seq<int>, b: seq<int>, k: int) {
    0 <= k <= |a| && k < |b| && a[..k] == b[..k] && (k == |a| || a[k] < b[k])
  }

  lemma {:induction false} LexIsFirstDifference(a: seq<int>, b: seq<int>)
    ensures Lex(a, b) <==> exists k :: LessAt(a, b, k)
  {
    if b != [] && a != [] && a[0] == b[0] {
      LexIsFirstDifference(a[1..], b[1..]);
      if k :| LessAt(a[1..], b[1..], k) {
        assert a[..k + 1] == [a[0]] + a[1..][..k] && b[..k + 1] == [b[0]] + b[1..][..k];
        assert LessAt(a, b, k + 1);
      }
      if k :| LessAt(a, b, k) {
        assert a[1..][..k - 1] == a[..k][1..] && b[1..][..k - 1] == b[..k][1..];
        assert LessAt(a[1..], b[1..], k - 1);
      }
    } else {
      forall k | 0 < k <= |a| && k < |b|
        ensures a[..k] != b[..k]
      {
        assert a[..k][0] == a[0] && b[..k][0] == b[0];
      }
      assert Lex(a, b) <==> LessAt(a, b, 0);
    }
  }

  predicate Below(a: Rank, b: Rank) {
    if b == [] then false
    else if a == [] then true
    else if a[0] != b[0] then Lex(a[0], b[0])
    else Below(a[1..], b[1..])
  }

  /** Component by component, for ranks of four. */
  lemma BelowFour(a: Rank, b: Rank)
    requires |a| == |b| == 4
    ensures Below(a, b) <==>
            if a[0] != b[0] then Lex(a[0], b[0])
            else if a[1] != b[1] then Lex(a[1], b[1])
            else if a[2] != b[2] then Lex(a[2], b[2])
            else a[3] != b[3] && Lex(a[3], b[3])
  {
    BelowLast(a[3..], b[3..]);
    assert a[2..][1..] == a[3..] && b[2..][1..] == b[3..];
    assert Below(a[2..], b[2..]) <==> if a[2] != b[2] then Lex(a[2], b[2]) else Below(a[3..], b[3..]);
    assert a[1..][1..] == a[2..] && b[1..][1..] == b[2..];
    assert Below(a[1..], b[1..]) <==> if a[1] != b[1] then Lex(a[1], b[1]) else Below(a[2..], b[2..]);
  }

  lemma BelowLast(a: Rank, b: Rank)
    requires |a| == |b| == 1
    ensures Below(a, b) <==> a[0] != b[0] && Lex(a[0], b[0])
  {
    assert a[1..] == [] == b[1..];
  }

  lemma {:induction false} LexTotal(a: seq<int>, b: seq<int>)
    ensures a == b || Lex(a, b) || Lex(b, a)
    ensures !(Lex(a, b) && Lex(b, a))
  {
    if a != [] && b != [] && a[0] == b[0] {
      LexTotal(a[1..], b[1..]);
      assert a == [a[0]] + a[1..] && b == [b[0]] + b[1..];
    }
  }

  lemma {:induction false} LexTransitive(a: seq<int>, b: seq<int>, c: seq<int>)
    requires Lex(a, b) && Lex(b, c)
    ensures Lex(a, c)
  {
    if a != [] && a[0] == b[0] && b[0] == c[0] {
      LexTransitive(a[1..], b[1..], c[1..]);
    }
  }

  lemma {:induction false} BelowTotal(a: Rank, b: Rank)
    ensures a == b || Below(a, b) || Below(b, a)
    ensures !(Below(a, b) && Below(b, a))
  {
    if a != [] && b != [] {
      LexTotal(a[0], b[0]);
      if a[0] == b[0] {
        BelowTotal(a[1..], b[1..]);
        assert a == [a[0]] + a[1..] && b == [b[0]] + b[1..];
      }
    }
  }

  lemma {:induction false} BelowTransitive(a: Rank, b: Rank, c: Rank)
    requires Below(a, b) && Below(b, c)
    ensures Below(a, c)
  {
    if a != [] {
      if a[0] == b[0] && b[0] == c[0] {
        BelowTransitive(a[1..], b[1..], c[1..]);
      } else if a[0] != b[0] && b[0] != c[0] {
        LexTransitive(a[0], b[0], c[0]);
        LexTotal(a[0], b[0]);
      }
    }
  }

  /** m is at the top: no entry ranks above it. */
  ghost predicate IsTop<T(!new)>(m: T, s: set<T>, rank: map<T, Rank>) {
    m in s && s <= rank.Keys && forall x | x in s :: !Below(rank[m], rank[x])
  }

  ghost predicate Injective<T(!new)>(s: set<T>, rank: map<T, Rank>) {
    s <= rank.Keys && forall x, y | x in s && y in s && rank[x] == rank[y] :: x == y
  }

  lemma {:induction false} TopExists<T(!new)>(s: set<T>, rank: map<T, Rank>) returns (m: T)
    requires s != {} && s <= rank.Keys
    ensures IsTop(m, s, rank)
    decreases |s|
  {
    m :| m in s;
    if s != {m} {
      var n := TopExists(s - {m}, rank);
      BelowTotal(rank[m], rank[n]);
      BelowTotal(rank[m], rank[m]);
      if Below(rank[m], rank[n]) {
        m := n;
      } else {
        forall x | x in s
          ensures !Below(rank[m], rank[x])
        {
          if x != m && Below(rank[m], rank[x]) {
            BelowTotal(rank[n], rank[x]);
            if Below(rank[n], rank[m]) {
              BelowTransitive(rank[n], rank[m], rank[x]);
            }
          }
        }
      }
    } else {
      BelowTotal(rank[m], rank[m]);
    }
  }

  lemma TopUnique<T(!new)>(m: T, n: T, s: set<T>, rank: map<T, Rank>)
    requires IsTop(m, s, rank) && IsTop(n, s, rank) && Injective(s, rank)
    ensures m == n
  {
    BelowTotal(rank[m], rank[n]);
  }

  ghost function Top<T(!new)>(s: set<T>, rank: map<T, Rank>): (m: T)
    requires s != {} && s <= rank.Keys
    ensures IsTop(m, s, rank)
  {
    assert exists m :: IsTop(m, s, rank) by { var m := TopExists(s, rank); }
    var m :| IsTop(m, s, rank);
    m
  }

  ghost predicate NoRepeats<T(!new)>(q: seq<T>) {
    forall i, j | 0 <= i < j < |q| :: q[i] != q[j]
  }

  ghost function Elements<T(!new)>(q: seq<T>): set<T> {
    set x | x in q
  }

  /** top() and pop() of a queue whose entries have different ranks. */
  method PopTop<T(==,!new)>(q: seq<T>, rank: map<T, Rank>) returns (top: T, rest: seq<T>)
    requires q != [] && NoRepeats(q) && Injective(Elements(q), rank)
    ensures Elements(q) != {} && top == Top(Elements(q), rank)
    ensures NoRepeats(rest) && Elements(rest) == Elements(q) - {top} && |rest| == |q| - 1
  {
    var best := 0;
    BelowTotal(rank[q[0]], rank[q[0]]);
    for i := 1 to |q|
      invariant 0 <= best < |q|
      invariant forall j | 0 <= j < i :: !Below(rank[q[best]], rank[q[j]])
    {
      if Below(rank[q[best]], rank[q[i]]) {
        forall j | 0 <= j <= i
          ensures !Below(rank[q[i]], rank[q[j]])
        {
          BelowTotal(rank[q[i]], rank[q[j]]);
          if j < i && Below(rank[q[i]], rank[q[j]]) {
            BelowTransitive(rank[q[best]], rank[q[i]], rank[q[j]]);
          }
        }
        best := i;
      }
    }
    top := q[best];
    assert top in Elements(q);
    assert IsTop(top, Elements(q), rank);
    TopUnique(top, Top(Elements(q), rank), Elements(q), rank);
    rest := q[..best] + q[best + 1..];
    TakenOut(q, best);
  }

  lemma TakenOut<T(!new)>(q: seq<T>, k: nat)
    requires k < |q| && NoRepeats(q)
    ensures NoRepeats(q[..k] + q[k + 1..]) && Elements(q[..k] + q[k + 1..]) == Elements(q) - {q[k]}
  {
    var rest := q[..k] + q[k + 1..];
    assert forall i | 0 <= i < |rest| :: rest[i] == q[if i < k then i else i + 1];
    forall x | x in Elements(q) && x != q[k]
      ensures x in rest
    {
      var i :| 0 <= i < |q| && q[i] == x;
      assert rest[if i < k then i else i - 1] == x;
    }
  }
}
