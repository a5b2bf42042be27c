/**
 * ObjectPool<T>: a FIFO free list of reusable objects with an optional
 * initialisation hook that runs once on every object the pool has to create.
 *
 * The hook (a std::function in the source) is modelled by an abstract value
 * of type H; invoking it is recorded in the ghost log `inits`, which is all
 * the pool itself can observe of it.
 */
module Pool {
  import opened Wrappers

  /** A pooled object: the source's T, of which only identity matters here. */
  class Item {
    constructor ()
    {
    }
  }

  class ObjectPool<H> {
    /** m_pool: the free list, head first. */
    var pool: seq<Item>
    /** m_initFunc: None when the std::function is empty. */
    var initFunc: Option<H>
    /** Every invocation of the hook so far, with the hook that ran, oldest first. */
    ghost var inits: seq<(Item, H)>
    /** The objects deleted when the pool was destroyed. */
    ghost var deleted: seq<Item>

    /** The hook never ran twice on the same object. */
    ghost predicate Valid()
      reads this
    {
      forall i, j :: 0 <= i < j < |inits| ==> inits[i].0 != inits[j].0
    }

    /** A new pool is empty and has no hook. */
    constructor ()
      ensures Valid()
      ensures pool == [] && initFunc == None && inits == [] && deleted == []
    {
      pool := [];
      initFunc := None;
      inits := [];
      deleted := [];
    }

    /** setInitFunc: install (or, with None, remove) the hook; nothing else changes. */
    method SetInitFunc(f: Option<H>)
      requires Valid()
      modifies this
      ensures Valid()
      ensures initFunc == f
      ensures pool == old(pool) && inits == old(inits) && deleted == old(deleted)
    {
      initFunc := f;
    }

    /**
     * pull: dequeue the head of the free list; when the list is empty, create
     * a new object and run the hook, if there is one, on it once.
     */
    method Pull() returns (item: Item)
      requires Valid()
      modifies this
      ensures Valid()
      ensures old(pool) != [] ==> item == old(pool)[0] && pool == old(pool)[1..] && inits == old(inits)
      ensures old(pool) == [] ==> (
        fresh(item) && pool == [] &&
        inits == old(inits) + (if initFunc.Some? then [(item, initFunc.value)] else []))
      ensures initFunc == old(initFunc) && deleted == old(deleted)
    {
      if pool == [] {
        item := new Item();
        if initFunc.Some? {
          inits := inits + [(item, initFunc.value)];
        }
      } else {
        item := pool[0];
        pool := pool[1..];
      }
    }

    /** push: enqueue at the tail of the free list; nothing else changes. */
    method Push(item: Item)
      requires Valid()
      modifies this
      ensures Valid()
      ensures pool == old(pool) + [item]
      ensures initFunc == old(initFunc) && inits == old(inits) && deleted == old(deleted)
    {
      pool := pool + [item];
    }

    /** The destructor: delete every object in the free list, once, and clear it. */
    method Destroy()
      requires Valid()
      modifies this
      ensures Valid()
      ensures pool == [] && deleted == old(deleted) + old(pool)
      ensures initFunc == old(initFunc) && inits == old(inits)
    {
      deleted := deleted + pool;
      pool := [];
    }
  }

  /** Cold start and reuse: on an empty pool, pull, push and pull give back the same object, and the hook runs only on the first pull. */
  method ReuseAfterPush<H>(p: ObjectPool<H>, hook: H) returns (first: Item, second: Item)
    requires p.Valid() && p.pool == []
    modifies p
    ensures p.Valid()
    ensures fresh(first) && second == first && p.pool == []
    ensures p.inits == old(p.inits) + [(first, hook)]
  {
    p.SetInitFunc(Some(hook));
    first := p.Pull();
    p.Push(first);
    second := p.Pull();
  }

  /** Pushing x onto an empty pool and pulling gives x back without running the hook. */
  method PushThenPull<H>(p: ObjectPool<H>, x: Item) returns (q: Item)
    requires p.Valid() && p.pool == []
    modifies p
    ensures p.Valid()
    ensures q == x && p.pool == [] && p.inits == old(p.inits)
  {
    p.Push(x);
    q := p.Pull();
  }

  /**
   * FIFO order: with two objects a, b in the pool, push(pull()) puts a behind
   * b, so the next pull gives b, not the object just returned.
   */
  method FifoReuse<H>(p: ObjectPool<H>, a: Item, b: Item) returns (first: Item, second: Item)
    requires p.Valid() && p.pool == [a, b]
    modifies p
    ensures p.Valid()
    ensures first == a && second == b && p.pool == [a]
    ensures p.inits == old(p.inits)
  {
    first := p.Pull();
    p.Push(first);
    second := p.Pull();
  }
}
