/**
 * Parameterised SQL statements as the routes build them: a sequence of tokens,
 * where a token is either a fragment of SQL text (each route names its own
 * fragments) or a numbered placeholder $n, plus the sequence of parameter
 * values the placeholders refer to ($n is params[n-1]).
 */
module Query {

  datatype Value = Int(n: int) | Text(s: string)

  datatype Token<F> = Sql(fragment: F) | Placeholder(index: nat)

  /** The placeholder indices of q, in order of appearance. */
  function Indices<F>(q: seq<Token<F>>): (ix: seq<nat>)
    ensures |ix| <= |q|
  {
    if q == [] then []
    else (if q[0].Placeholder? then [q[0].index] else []) + Indices(q[1..])
  }

  /** The largest index in ix, or 0 when ix is empty. */
  function Highest(ix: seq<nat>): (n: nat)
    ensures forall k :: k in ix ==> k <= n
    ensures ix != [] ==> n in ix
  {
    if ix == [] then 0
    else
      var init, last := ix[..|ix| - 1], ix[|ix| - 1];
      var h := Highest(init);
      assert forall k :: k in ix ==> k in init || k == last by {
        assert ix == init + [last];
      }
      if last > h then last else h
  }

  /**
   * Indices numbered consecutively from 1: each one either reuses an index
   * already introduced or introduces the next one.
   */
  predicate Consecutive(ix: seq<nat>) {
    ix == [] ||
      (Consecutive(ix[..|ix| - 1]) && 1 <= ix[|ix| - 1] <= Highest(ix[..|ix| - 1]) + 1)
  }

  /** q's placeholders are numbered consecutively from $1 and the highest is $|params|. */
  predicate Binds<F>(q: seq<Token<F>>, params: seq<Value>) {
    Consecutive(Indices(q)) && Highest(Indices(q)) == |params|
  }

  lemma {:induction false} IndicesAppend<F>(a: seq<Token<F>>, b: seq<Token<F>>)
    ensures Indices(a + b) == Indices(a) + Indices(b)
    decreases |a|
  {
    if a == [] {
      assert a + b == b;
    } else {
      assert (a + b)[0] == a[0];
      assert (a + b)[1..] == a[1..] + b;
      IndicesAppend(a[1..], b);
    }
  }

  lemma {:induction false} IndicesMembership<F>(q: seq<Token<F>>, k: nat)
    ensures k in Indices(q) <==> Placeholder(k) in q
    decreases |q|
  {
    if q != [] {
      IndicesMembership(q[1..], k);
      assert q == [q[0]] + q[1..];
    }
  }

  /**
   * Appending indices that all equal the next index keeps the numbering, and
   * raises the highest index by one when there is at least one of them.
   */
  lemma {:induction false} AppendNext(ix: seq<nat>, more: seq<nat>)
    requires Consecutive(ix)
    requires forall j :: 0 <= j < |more| ==> more[j] == Highest(ix) + 1
    ensures Consecutive(ix + more)
    ensures Highest(ix + more) == if more == [] then Highest(ix) else Highest(ix) + 1
    decreases |more|
  {
    if more == [] {
      assert ix + more == ix;
    } else {
      var init := more[..|more| - 1];
      AppendNext(ix, init);
      assert (ix + more)[..|ix + more| - 1] == ix + init;
    }
  }

  /**
   * Appending a clause whose placeholders all take the next index keeps the
   * statement consecutively numbered.
   */
  lemma AppendClause<F>(q: seq<Token<F>>, clause: seq<Token<F>>)
    requires Consecutive(Indices(q))
    requires forall j :: 0 <= j < |clause| && clause[j].Placeholder? ==> clause[j].index == Highest(Indices(q)) + 1
    ensures Consecutive(Indices(q + clause))
    ensures Highest(Indices(q + clause)) ==
      if Indices(clause) == [] then Highest(Indices(q)) else Highest(Indices(q)) + 1
  {
    IndicesAppend(q, clause);
    var more := Indices(clause);
    forall j | 0 <= j < |more| ensures more[j] == Highest(Indices(q)) + 1 {
      assert more[j] in more;
      IndicesMembership(clause, more[j]);
      var i :| 0 <= i < |clause| && clause[i] == Placeholder(more[j]);
    }
    AppendNext(Indices(q), Indices(clause));
  }

  /**
   * Binding one more parameter with a clause whose placeholders all take the
   * new index (at least one of them) keeps the statement bound.
   */
  lemma BindNext<F>(q: seq<Token<F>>, params: seq<Value>, clause: seq<Token<F>>, v: Value)
    requires Binds(q, params)
    requires forall j :: 0 <= j < |clause| && clause[j].Placeholder? ==> clause[j].index == |params| + 1
    requires Placeholder(|params| + 1) in clause
    ensures Binds(q + clause, params + [v])
  {
    AppendClause(q, clause);
    IndicesMembership(clause, |params| + 1);
  }

  /**
   * Appending "a $n+1 b $n+2" with two more parameters keeps the statement
   * bound: the two placeholders take the next two indices in turn.
   */
  lemma BindNextTwo<F>(q: seq<Token<F>>, params: seq<Value>, a: F, b: F, v: Value, w: Value)
    requires Binds(q, params)
    ensures Binds(q + [Sql(a), Placeholder(|params| + 1), Sql(b), Placeholder(|params| + 2)], params + [v, w])
  {
    var first, second := [Sql(a), Placeholder(|params| + 1)], [Sql(b), Placeholder(|params| + 2)];
    BindNext(q, params, first, v);
    BindNext(q + first, params + [v], second, w);
    assert q + first + second == q + [Sql(a), Placeholder(|params| + 1), Sql(b), Placeholder(|params| + 2)];
    assert params + [v] + [w] == params + [v, w];
  }

  /** A statement with no placeholders binds no parameters. */
  lemma BindNone<F>(q: seq<Token<F>>)
    requires forall j :: 0 <= j < |q| ==> q[j].Sql?
    ensures Binds(q, [])
  {
    AppendClause([], q);
    assert [] + q == q;
    if Indices(q) != [] {
      IndicesMembership(q, Indices(q)[0]);
    }
  }

  /** Appending plain SQL text keeps the statement bound to the same parameters. */
  lemma BindText<F>(q: seq<Token<F>>, params: seq<Value>, clause: seq<Token<F>>)
    requires Binds(q, params)
    requires forall j :: 0 <= j < |clause| ==> clause[j].Sql?
    ensures Binds(q + clause, params)
  {
    AppendClause(q, clause);
    if Indices(clause) != [] {
      IndicesMembership(clause, Indices(clause)[0]);
    }
  }

  /** In a consecutively numbered sequence every index from 1 to the highest one occurs. */
  lemma {:induction false} EveryIndexUsed(ix: seq<nat>, k: nat)
    requires Consecutive(ix)
    requires 1 <= k <= Highest(ix)
    ensures k in ix
    decreases |ix|
  {
    var init := ix[..|ix| - 1];
    assert ix == init + [ix[|ix| - 1]];
    if k <= Highest(init) {
      EveryIndexUsed(init, k);
    }
  }

  /** A statement that binds params uses every placeholder $1..$|params|. */
  lemma EveryParamReferenced<F>(q: seq<Token<F>>, params: seq<Value>, k: nat)
    requires Binds(q, params)
    requires 1 <= k <= |params|
    ensures Placeholder(k) in q
  {
    EveryIndexUsed(Indices(q), k);
    IndicesMembership(q, k);
  }
}
