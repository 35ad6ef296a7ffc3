/** How deep the cascade of `delete_task_cascade` reaches: one level, whatever the tree below. */
module Cascade {
  import opened RunMachine
  import opened Tables

  /** x lies n levels below the root. */
  ghost predicate Below(tasks: seq<Task>, root: nat, x: Task, n: nat)
    decreases n
  {
    if n == 0 then x.id == root
    else if n == 1 then x.parentId == root
    else exists y :: y in tasks && y.id == x.parentId && Below(tasks, root, y, n - 1)
  }

  /** The task two levels below the root survives. */
  ghost predicate SparedGrandchild(tasks: seq<Task>, root: nat, x: Task) {
    x in tasks && Below(tasks, root, x, 2) && Spared(x, root)
  }

  /** A surviving task whose parent went. */
  ghost predicate Orphan(tasks: seq<Task>, root: nat, x: Task) {
    x in Without(tasks, root) && exists y :: y in tasks && y.id == x.parentId && y !in Without(tasks, root)
  }

  lemma {:induction false} BelowGoes(tasks: seq<Task>, root: nat, x: Task, n: nat)
    requires forall g :: g in tasks && Below(tasks, root, g, 2) ==> !Spared(g, root)
    requires x in tasks && Below(tasks, root, x, n)
    ensures !Spared(x, root)
    decreases n
  {
    if n > 2 {
      var y :| y in tasks && y.id == x.parentId && Below(tasks, root, y, n - 1);
      BelowGoes(tasks, root, y, n - 1);
      if y.parentId == root { assert Below(tasks, root, x, 2); }
    }
  }

  /** The cascade removes the whole tree below the root, at every depth, exactly when it spares no
      grandchild. */
  lemma WholeTreeIff(tasks: seq<Task>, root: nat)
    ensures (forall x, n :: x in tasks && Below(tasks, root, x, n) ==> x !in Without(tasks, root))
       <==> !exists x :: SparedGrandchild(tasks, root, x)
  {
    if x :| SparedGrandchild(tasks, root, x) {
      assert x in tasks && Below(tasks, root, x, 2) && x in Without(tasks, root);
    } else {
      forall g | g in tasks && Below(tasks, root, g, 2) ensures !Spared(g, root) {
        assert !SparedGrandchild(tasks, root, g);
      }
      forall x, n | x in tasks && Below(tasks, root, x, n) ensures x !in Without(tasks, root) {
        BelowGoes(tasks, root, x, n);
      }
    }
  }

  /** The tasks the cascade orphans are exactly the grandchildren it spares. */
  lemma OrphanIff(tasks: seq<Task>, root: nat, x: Task)
    ensures Orphan(tasks, root, x) <==> SparedGrandchild(tasks, root, x)
  {
    if SparedGrandchild(tasks, root, x) {
      var y :| y in tasks && y.id == x.parentId && Below(tasks, root, y, 1);
    }
    if Orphan(tasks, root, x) {
      var y :| y in tasks && y.id == x.parentId && y !in Without(tasks, root);
      assert Below(tasks, root, y, 1);
    }
  }

  /** In a table where a parent is older than its child no grandchild is spared by accident: the
      cascade orphans nobody exactly when the tree below the root is at most one level deep. */
  lemma OrphanFreeIffShallow(tasks: seq<Task>, bound: nat, root: nat)
    requires TasksSorted(tasks, bound) && forall x :: x in tasks ==> x.parentId < x.id
    ensures (forall x :: !Orphan(tasks, root, x)) <==> forall x :: x in tasks ==> !Below(tasks, root, x, 2)
  {
    forall x ensures Orphan(tasks, root, x) <==> x in tasks && Below(tasks, root, x, 2) {
      OrphanIff(tasks, root, x);
      if x in tasks && Below(tasks, root, x, 2) {
        var y :| y in tasks && y.id == x.parentId && Below(tasks, root, y, 1);
        assert root < y.id < x.id && x.parentId != root;
      }
    }
  }
}
