/**
  The window manager's shared state: the reference-counted initialisation
  of the windowing library, the allocation of context groups, and the
  current-context switch.

  The two counters of `GLFWManager` are static `unsigned` members, so both
  wrap around modulo 2^32; they start at zero. The library itself is not
  modelled: whether `glfwInit` succeeds and which window `glfwCreateWindow`
  returns are parameters. The static state lives in one `Library` object.
*/
module GlfwManager {
  import opened Wrappers

  const WORD: nat := 0x1_0000_0000

  /** An `unsigned` value. */
  type U32 = n: nat | n < WORD

  /** `n++` on an `unsigned`. */
  function Increment(n: U32): (r: U32)
    ensures n < WORD - 1 ==> r == n + 1
    ensures n == WORD - 1 ==> r == 0
  {
    (n + 1) % WORD
  }

  /** `n--` on an `unsigned`. */
  function Decrement(n: U32): (r: U32)
    ensures n > 0 ==> r == n - 1
    ensures n == 0 ==> r == WORD - 1
  {
    (n + WORD - 1) % WORD
  }

  /** Counting one more, modulo 2^32, is `Increment`. */
  lemma CountUp(n: nat)
    ensures (n + 1) % WORD == Increment(n % WORD)
  {
    var q := n / WORD;
    assert n == q * WORD + n % WORD;
    if n % WORD == WORD - 1 {
      assert n + 1 == (q + 1) * WORD;
    } else {
      assert n + 1 == q * WORD + (n % WORD + 1);
    }
  }

  /** Counting one less, modulo 2^32, is `Decrement`. */
  lemma CountDown(n: nat)
    requires n >= 1
    ensures (n - 1) % WORD == Decrement(n % WORD)
  {
    CountUp(n - 1);
  }

  /** A non-null window handle. */
  type Window = nat

  /** A constructed manager: one window in one context group. */
  class Manager {
    const contextGroup: U32
    const window: Window

    constructor (contextGroup: U32, window: Window)
      ensures this.contextGroup == contextGroup && this.window == window
    {
      this.contextGroup := contextGroup;
      this.window := window;
    }
  }

  /** How a construction ends: a manager, or one of the two exceptions. */
  datatype Construction = Built(manager: Manager) | InitFailed | WindowFailed

  /** The groups the constructions without a share manager have taken, in
      order, when the counter started at zero: the i-th is i modulo 2^32. */
  ghost predicate GroupsInOrder(issued: seq<U32>) {
    forall i :: 0 <= i < |issued| ==> issued[i] == i % WORD
  }

  /** Handing out the counter's value keeps the groups in order. */
  lemma GroupsStep(issued: seq<U32>)
    requires GroupsInOrder(issued)
    ensures GroupsInOrder(issued + [(|issued| % WORD) as U32])
  {
  }

  /** Fewer than 2^32 group allocations never reuse a group. */
  lemma GroupsDistinct(issued: seq<U32>)
    requires GroupsInOrder(issued) && |issued| <= WORD
    ensures forall i, j :: 0 <= i < j < |issued| ==> issued[i] != issued[j]
  {
    forall i, j | 0 <= i < j < |issued|
      ensures issued[i] != issued[j]
    {
      assert issued[i] == i && issued[j] == j;
    }
  }

  /** The 2^32-nd allocation wraps around and hands out the first group again. */
  lemma GroupsWrap(issued: seq<U32>)
    requires GroupsInOrder(issued) && |issued| > WORD
    ensures issued[WORD] == issued[0]
  {
    assert issued[WORD] == WORD % WORD;
  }

  /** The static state shared by all managers. */
  class Library {
    /** `GLFWManager::instances`. */
    var instances: U32
    /** `GLFWManager::contextGroups`. */
    var contextGroups: U32
    /** Whether `glfwInit` has succeeded and `glfwTerminate` not run since. */
    var initialized: bool
    /** The window whose context is current. */
    var current: Option<Window>

    /** The managers constructed and not yet destroyed. */
    ghost var live: set<Manager>
    /** Constructions that threw after counting themselves as an instance. */
    ghost var leaked: nat
    /** The groups handed out to constructions without a share manager. */
    ghost var issued: seq<U32>
    /** Whether the instance count has ever reached 2^32. */
    ghost var wrapped: bool

    /**
      The instance count counts the live managers and the constructions
      whose window creation failed, modulo 2^32; the group counter is the
      number of groups handed out, modulo 2^32. As long as the instance
      count has never wrapped, the library is initialised exactly when the
      count is non-zero.
    */
    ghost predicate Valid()
      reads this
    {
      Counts(0)
    }

    /** `Valid`, with `extra` instances counted that are neither live nor
        leaked yet: the state between counting an instance and creating its
        window. */
    ghost predicate Counts(extra: nat)
      reads this
    {
      && instances == (|live| + leaked + extra) % WORD
      && contextGroups == |issued| % WORD
      && GroupsInOrder(issued)
      && (!wrapped ==> |live| + leaked + extra < WORD && (initialized <==> instances != 0))
    }

    constructor ()
      ensures Valid()
      ensures instances == 0 && contextGroups == 0 && !initialized && current == None
      ensures live == {} && leaked == 0 && issued == [] && !wrapped
    {
      instances, contextGroups, initialized, current := 0, 0, false, None;
      live, leaked, issued, wrapped := {}, 0, [], false;
    }

    /**
      The constructor of `GLFWManager`. The group is taken first: a share
      manager's group, or else the counter's value, which is then
      incremented. If no instance exists the library is initialised, and a
      failed initialisation throws before the instance is counted. Then the
      instance is counted and the window created; a failed window creation
      throws with the count already incremented.
    */
    method Construct(share: Option<Manager>, initSucceeds: bool, created: Option<Window>) returns (r: Construction)
      requires Valid()
      modifies this
      ensures Valid()
      ensures current == old(current)
      ensures share.Some? ==> contextGroups == old(contextGroups) && issued == old(issued)
      ensures share.None? ==> contextGroups == Increment(old(contextGroups)) && issued == old(issued) + [old(contextGroups)]
      ensures old(instances) == 0 && !initSucceeds ==>
        r == InitFailed && instances == old(instances) && initialized == old(initialized)
        && live == old(live) && leaked == old(leaked)
      ensures !(old(instances) == 0 && !initSucceeds) ==>
        && instances == Increment(old(instances))
        && initialized == (old(initialized) || old(instances) == 0)
      ensures !(old(instances) == 0 && !initSucceeds) && created.None? ==>
        r == WindowFailed && live == old(live) && leaked == old(leaked) + 1
      ensures !(old(instances) == 0 && !initSucceeds) && created.Some? ==>
        && r.Built? && fresh(r.manager)
        && r.manager.window == created.value
        && r.manager.contextGroup == (if share.Some? then share.value.contextGroup else old(contextGroups))
        && live == old(live) + {r.manager} && leaked == old(leaked)
    {
      var group := TakeGroup(share);
      var entered := Enter(initSucceeds);
      if !entered {
        return InitFailed;
      }
      if created.None? {
        leaked := leaked + 1;
        return WindowFailed;
      }
      var m := new Manager(group, created.value);
      live := live + {m};
      r := Built(m);
    }

    /** The member initialiser of `contextGroup`: a share manager's group,
        or else the counter's value, after which the counter goes up. */
    method TakeGroup(share: Option<Manager>) returns (group: U32)
      requires Valid()
      modifies this
      ensures Valid()
      ensures group == if share.Some? then share.value.contextGroup else old(contextGroups)
      ensures share.Some? ==> contextGroups == old(contextGroups) && issued == old(issued)
      ensures share.None? ==> contextGroups == Increment(old(contextGroups)) && issued == old(issued) + [old(contextGroups)]
      ensures instances == old(instances) && initialized == old(initialized) && current == old(current)
      ensures live == old(live) && leaked == old(leaked) && wrapped == old(wrapped)
    {
      if share.Some? {
        group := share.value.contextGroup;
      } else {
        group := contextGroups;
        GroupsStep(issued);
        CountUp(|issued|);
        contextGroups := Increment(contextGroups);
        issued := issued + [group];
      }
    }

    /** The locked part of the constructor before the window is created:
        initialise the library when no instance exists, then count the new
        instance. `entered` is false when the initialisation failed, and then
        nothing changes. */
    method Enter(initSucceeds: bool) returns (entered: bool)
      requires Valid()
      modifies this
      ensures entered == !(old(instances) == 0 && !initSucceeds)
      ensures !entered ==> Valid() && instances == old(instances) && initialized == old(initialized)
      ensures entered ==> Counts(1) && instances == Increment(old(instances))
                          && initialized == (old(initialized) || old(instances) == 0)
      ensures contextGroups == old(contextGroups) && current == old(current)
      ensures live == old(live) && leaked == old(leaked) && issued == old(issued)
    {
      if instances == 0 {
        if !initSucceeds {
          return false;
        }
        initialized := true;
      }
      CountUp(|live| + leaked);
      instances := Increment(instances);
      wrapped := wrapped || |live| + leaked + 1 >= WORD;
      entered := true;
    }

    /**
      The destructor of `GLFWManager`: the window is destroyed (its context
      stops being current if it was), the instance count goes down, and the
      library is terminated when the count reaches zero.
    */
    method Destroy(m: Manager)
      requires Valid() && m in live
      modifies this
      ensures Valid()
      ensures instances == Decrement(old(instances))
      ensures initialized == (old(initialized) && instances != 0)
      ensures current == (if old(current) == Some(m.window) then None else old(current))
      ensures contextGroups == old(contextGroups) && issued == old(issued)
      ensures live == old(live) - {m} && leaked == old(leaked)
    {
      if current == Some(m.window) {
        current := None;
      }
      CountDown(|live| + leaked);
      instances := Decrement(instances);
      live := live - {m};
      if instances == 0 {
        initialized := false;
      }
    }

    /**
      `makeContextCurrent`: the context is switched only when another one is
      current or the switch is forced; afterwards this window's context is
      current. `switched` says whether the switch was made.
    */
    method MakeContextCurrent(m: Manager, force: bool) returns (switched: bool)
      modifies this
      ensures switched == (old(current) != Some(m.window) || force)
      ensures current == Some(m.window)
      ensures instances == old(instances) && contextGroups == old(contextGroups) && initialized == old(initialized)
      ensures live == old(live) && leaked == old(leaked) && issued == old(issued) && wrapped == old(wrapped)
    {
      switched := current != Some(m.window) || force;
      if switched {
        current := Some(m.window);
      }
    }
  }
}
