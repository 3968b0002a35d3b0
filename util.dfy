/**
  Small helpers the host is built from: a guard that runs a cleanup action
  at most once, the guard that puts a variable back on scope exit, the
  argument-list builder for outgoing messages, and the bit operators that
  flag enumerations get.
 */
module Util {

  /**
    `scope_warden`: holds a cleanup action until it is run or dismissed. The
    action itself is abstract; `runs` counts how often it has been invoked.
   */
  class ScopeWarden {
    /** `_p` is not null. */
    var armed: bool
    var runs: nat

    /** The action runs at most once: never again once the warden is disarmed. */
    ghost predicate Valid()
      reads this
    {
      (armed ==> runs == 0) && runs <= 1
    }

    /** An armed warden whose action has not run. */
    constructor ()
      ensures Valid() && armed && runs == 0
    {
      armed := true;
      runs := 0;
    }

    /** `dismiss`: the action will not run. */
    method Dismiss()
      requires Valid()
      modifies this`armed
      ensures Valid() && !armed
    {
      armed := false;
    }

    /** `run`: the action runs now if the warden is armed, and the warden is disarmed. */
    method Run()
      requires Valid()
      modifies this
      ensures Valid() && !armed
      ensures runs == old(runs) + if old(armed) then 1 else 0
    {
      if armed {
        runs := runs + 1;
        armed := false;
      }
      Dismiss();
    }

    /**
      `~scope_warden`: the action runs when the warden is still armed. The
      object ends here; the model disarms it so that nothing can run later.
     */
    method Destroy()
      requires Valid()
      modifies this
      ensures Valid() && !armed
      ensures runs == old(runs) + if old(armed) then 1 else 0
    {
      if armed {
        runs := runs + 1;
      }
      armed := false;
    }
  }

  /** A variable whose value the program changes in place. */
  class Cell<T> {
    var value: T

    constructor (v: T)
      ensures value == v
    {
      value := v;
    }
  }

  /**
    `SCOPE_WARDEN_RESTORE(x)`: the value of `x` is copied when the guard is
    made, and leaving the scope writes the copy back.
   */
  class RestoreWarden<T> {
    const cell: Cell<T>
    /** `x_old_value`. */
    const saved: T
    var armed: bool

    constructor (c: Cell<T>)
      ensures cell == c && saved == c.value && armed
    {
      cell := c;
      saved := c.value;
      armed := true;
    }

    /** `dismiss`: the variable keeps whatever it holds at scope exit. */
    method Dismiss()
      modifies this`armed
      ensures !armed
    {
      armed := false;
    }

    /**
      Leaving the scope: an armed guard puts the saved value back, whatever
      was assigned to the variable in between; afterwards it is disarmed.
     */
    method Exit()
      modifies this`armed, cell
      ensures !armed
      ensures cell.value == if old(armed) then saved else old(cell.value)
    {
      if armed {
        cell.value := saved;
      }
      armed := false;
    }
  }

  /** A `picojson::array` that values are pushed onto. */
  class JsonArray<T> {
    var elems: seq<T>

    constructor ()
      ensures elems == []
    {
      elems := [];
    }

    /** `push_back`. */
    method PushBack(x: T)
      modifies this
      ensures elems == old(elems) + [x]
    {
      elems := elems + [x];
    }

    /**
      `append(arr, a1, ..., an)`: the arguments are pushed one by one, the
      first first, as the variadic template recursion does; what was there
      stays in front of them.
     */
    method Append(args: seq<T>)
      modifies this
      ensures elems == old(elems) + args
      decreases |args|
    {
      if args != [] {
        PushBack(args[0]);
        Append(args[1..]);
        assert [args[0]] + args[1..] == args;
      }
    }
  }
}

/** The operators `FLAGS_ENUM` gives an enumeration whose values are sets of bits. */
module FlagsEnum {
  /**
    The bits of a flag enumeration's underlying integer. Eight bits are
    modelled; the operators act bit by bit, so nothing proved here depends
    on the width.
   */
  type Flags = bv8

  /** `operator|` of `FLAGS_ENUM`; `x |= y` assigns `x | y` to `x`. */
  function Union(x: Flags, y: Flags): (r: Flags)
    ensures r & x == x && r & y == y
    ensures r == 0 <==> x == 0 && y == 0
  {
    x | y
  }

  /** `has_flag(x, y)`: `x` and `y` share a set bit. */
  predicate HasFlag(x: Flags, y: Flags)
  {
    x & y != 0
  }

  /** A union has a flag exactly when one of its parts has it. */
  lemma HasFlagUnion(x: Flags, y: Flags, z: Flags)
    ensures HasFlag(Union(x, y), z) <==> HasFlag(x, z) || HasFlag(y, z)
  {
  }

  /** Every non-empty flag set has itself, and the empty one has nothing. */
  lemma HasFlagSelf(x: Flags, y: Flags)
    ensures HasFlag(x, x) <==> x != 0
    ensures !HasFlag(0, y)
  {
  }
}
