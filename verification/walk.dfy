/**
  Python's `ast.walk` visits nodes with a FIFO queue: it pops the front node,
  appends that node's children and yields it. This module models that walk
  over statements, stopped at the first `return` that carries a value, and
  proves it equal to two independent descriptions: the level-by-level
  (breadth-first) order of the tree, and plain membership in the tree.

  Expression nodes and the `arguments` node are also queued by `ast.walk`,
  but they never contain statements, so they do not change the relative
  order in which statements are reached; the walk here starts from the
  function's body, the statement children of the `FunctionDef` node.
 */
module Walk {
  import opened PyAst

  predicate IsValuedReturn(s: Stmt) {
    s.Return? && s.value.Some?
  }

  /** The children of every node of `q`, in order: the next level of the forest. */
  function NextLevel(q: seq<Stmt>): (r: seq<Stmt>)
    ensures SeqSize(r) + |q| == SeqSize(q)
    decreases |q|
  {
    if q == [] then []
    else
      SeqSizeConcat(Kids(q[0]), NextLevel(q[1..]));
      Kids(q[0]) + NextLevel(q[1..])
  }

  /** Breadth-first order: the forest itself, then its next level, and so on. */
  function LevelOrder(q: seq<Stmt>): seq<Stmt>
    decreases SeqSize(q)
  {
    if q == [] then [] else q + LevelOrder(NextLevel(q))
  }

  /** `x` is a node somewhere in the forest `q`, at any depth. */
  predicate Occurs(x: Stmt, q: seq<Stmt>)
    decreases q
  {
    q != [] && (q[0] == x || (q[0].Compound? && Occurs(x, q[0].body)) || Occurs(x, q[1..]))
  }

  /** The first valued return of a flat sequence of nodes. */
  function FirstIn(s: seq<Stmt>): (r: Option<Stmt>)
    ensures r.Some? <==> exists i :: 0 <= i < |s| && IsValuedReturn(s[i])
    ensures r.Some? ==>
      exists i :: (0 <= i < |s| && s[i] == r.value && IsValuedReturn(s[i])
                   && forall j :: 0 <= j < i ==> !IsValuedReturn(s[j]))
  {
    if s == [] then None
    else if IsValuedReturn(s[0]) then Some(s[0])
    else
      var r := FirstIn(s[1..]);
      assert r.Some? ==> exists i :: (1 <= i < |s| && s[i] == r.value && IsValuedReturn(s[i])
                                      && forall j :: 0 <= j < i ==> !IsValuedReturn(s[j])) by {
        if r.Some? {
          var k :| 0 <= k < |s[1..]| && s[1..][k] == r.value && IsValuedReturn(s[1..][k])
            && forall j :: 0 <= j < k ==> !IsValuedReturn(s[1..][j]);
          assert forall j :: 0 <= j < k + 1 ==> !IsValuedReturn(s[j]) by {
            forall j | 0 <= j < k + 1 ensures !IsValuedReturn(s[j]) {
              if j > 0 { assert s[j] == s[1..][j - 1]; }
            }
          }
          assert s[k + 1] == r.value;
        }
      }
      assert (exists i :: 0 <= i < |s| && IsValuedReturn(s[i])) ==>
        exists i :: 0 <= i < |s[1..]| && IsValuedReturn(s[1..][i]) by {
        if exists i :: 0 <= i < |s| && IsValuedReturn(s[i]) {
          var i :| 0 <= i < |s| && IsValuedReturn(s[i]);
          assert i > 0 && s[1..][i - 1] == s[i];
        }
      }
      r
  }

  /**
    The walk itself: pop the front of the queue; stop if it is a valued
    return, otherwise append its children and continue.
   */
  function FirstValuedReturn(queue: seq<Stmt>): Option<Stmt>
    decreases SeqSize(queue)
  {
    if queue == [] then None
    else if IsValuedReturn(queue[0]) then Some(queue[0])
    else
      SeqSizeConcat(queue[1..], Kids(queue[0]));
      SizeExceedsKids(queue[0]);
      FirstValuedReturn(queue[1..] + Kids(queue[0]))
  }

  lemma {:induction false} FirstInConcat(a: seq<Stmt>, b: seq<Stmt>)
    ensures FirstIn(a + b) == if FirstIn(a).Some? then FirstIn(a) else FirstIn(b)
    decreases |a|
  {
    if a == [] {
      assert a + b == b;
    } else {
      assert (a + b)[0] == a[0];
      assert (a + b)[1..] == a[1..] + b;
      FirstInConcat(a[1..], b);
    }
  }

  /**
    Processing the nodes of `q` from the front of the queue either stops at
    the first valued return among them, or leaves behind the rest of the
    queue followed by the next level of `q`.
   */
  lemma {:induction false} WalkPastPrefix(q: seq<Stmt>, rest: seq<Stmt>)
    ensures FirstValuedReturn(q + rest)
         == if FirstIn(q).Some? then FirstIn(q) else FirstValuedReturn(rest + NextLevel(q))
    decreases |q|
  {
    if q == [] {
      assert q + rest == rest;
      assert rest + NextLevel(q) == rest;
    } else {
      var x := q[0];
      assert (q + rest)[0] == x;
      if !IsValuedReturn(x) {
        assert (q + rest)[1..] + Kids(x) == q[1..] + (rest + Kids(x));
        WalkPastPrefix(q[1..], rest + Kids(x));
        assert NextLevel(q) == Kids(x) + NextLevel(q[1..]);
        assert (rest + Kids(x)) + NextLevel(q[1..]) == rest + NextLevel(q);
      }
    }
  }

  /** The queue walk stops at the first valued return in breadth-first order. */
  lemma {:induction false} WalkIsLevelOrder(q: seq<Stmt>)
    ensures FirstValuedReturn(q) == FirstIn(LevelOrder(q))
    decreases SeqSize(q)
  {
    if q != [] {
      assert q + [] == q;
      WalkPastPrefix(q, []);
      assert [] + NextLevel(q) == NextLevel(q);
      WalkIsLevelOrder(NextLevel(q));
      FirstInConcat(q, LevelOrder(NextLevel(q)));
    }
  }

  lemma {:induction false} OccursConcat(x: Stmt, a: seq<Stmt>, b: seq<Stmt>)
    ensures Occurs(x, a + b) <==> Occurs(x, a) || Occurs(x, b)
    decreases |a|
  {
    if a == [] {
      assert a + b == b;
    } else {
      assert (a + b)[0] == a[0];
      assert (a + b)[1..] == a[1..] + b;
      OccursConcat(x, a[1..], b);
    }
  }

  /** A node of the forest is either one of its roots or a node of the next level. */
  lemma {:induction false} OccursByLevel(x: Stmt, q: seq<Stmt>)
    ensures Occurs(x, q) <==> x in q || Occurs(x, NextLevel(q))
    decreases |q|
  {
    if q != [] {
      OccursByLevel(x, q[1..]);
      OccursConcat(x, Kids(q[0]), NextLevel(q[1..]));
      assert q == [q[0]] + q[1..];
    }
  }

  /** The breadth-first order lists exactly the nodes of the forest. */
  lemma {:induction false} LevelOrderMembers(x: Stmt, q: seq<Stmt>)
    ensures x in LevelOrder(q) <==> Occurs(x, q)
    decreases SeqSize(q)
  {
    if q != [] {
      LevelOrderMembers(x, NextLevel(q));
      OccursByLevel(x, q);
    }
  }

  /**
    The walk finds something exactly when some valued return occurs in the
    forest, and what it finds is such a node.
   */
  lemma WalkFindsValuedReturn(q: seq<Stmt>)
    ensures FirstValuedReturn(q).Some? <==> exists t :: Occurs(t, q) && IsValuedReturn(t)
    ensures FirstValuedReturn(q).Some? ==>
      Occurs(FirstValuedReturn(q).value, q) && IsValuedReturn(FirstValuedReturn(q).value)
  {
    WalkIsLevelOrder(q);
    var order := LevelOrder(q);
    if exists t :: Occurs(t, q) && IsValuedReturn(t) {
      var t :| Occurs(t, q) && IsValuedReturn(t);
      LevelOrderMembers(t, q);
      var i :| 0 <= i < |order| && order[i] == t;
    }
    if FirstValuedReturn(q).Some? {
      var v := FirstValuedReturn(q).value;
      assert v in order;
      LevelOrderMembers(v, q);
    }
  }
}
