/**
 * BitChecker: a record of which of n expected arguments have been read.
 * Two 32-bit bitsets: good has bits 0..n-1 set by the constructor, and
 * checksum gets bit k set each time argument k is checked. The checker is
 * good when the two are equal. A bitset is modelled as the set of the
 * positions of its set bits.
 */
module Bits {
  import opened Wrappers
  import opened ArgErrors

  newtype uint8 = x: int | 0 <= x < 256

  /** The number of bits in each bitset. */
  const Width: nat := 32

  /** The positions 0..n-1. */
  function Range(n: nat): set<nat> {
    if n == 0 then {} else Range(n - 1) + {n - 1}
  }

  lemma {:induction false} RangeMembers(n: nat)
    ensures forall k: nat :: k in Range(n) <==> k < n
    decreases n
  {
    if n > 0 {
      RangeMembers(n - 1);
    }
  }

  lemma {:induction false} RangeSize(n: nat)
    ensures |Range(n)| == n
    decreases n
  {
    if n > 0 {
      var below := Range(n - 1);
      RangeSize(n - 1);
      assert n - 1 !in below by {
        RangeMembers(n - 1);
      }
      assert Range(n) == below + {n - 1};
      assert |below + {n - 1}| == |below| + 1;
    } else {
      assert Range(0) == {};
    }
  }

  class BitChecker {
    var good: set<nat>
    var checksum: set<nat>

    /** good holds the first n positions for some 1 <= n <= 32; both fit in the bitsets. */
    ghost predicate Valid()
      reads this
    {
      && 1 <= |good| <= Width
      && good == Range(|good|)
      && forall k :: k in checksum ==> k < Width
    }

    /** The number of arguments the checker expects. */
    function Expected(): nat
      reads this
    {
      |good|
    }

    /** Expects arguments 0..n-1, none of them checked yet. */
    constructor (n: uint8)
      requires 1 <= n as int <= Width
      ensures Valid()
      ensures good == Range(n as nat) && Expected() == n as nat
      ensures checksum == {}
    {
      good := {};
      checksum := {};
      new;
      var i: uint8 := 0;
      while i < n
        invariant 0 <= i <= n
        invariant good == Range(i as nat)
        invariant checksum == {}
      {
        assert Range(i as nat + 1) == Range(i as nat) + {i as nat};
        good := good + {i as nat};
        i := i + 1;
      }
      RangeSize(n as nat);
      assert |good| == n as nat;
    }

    /**
     * Marks argument arg as read. Setting a bit past the end of the
     * bitset throws out_of_range; inRange is false then and nothing
     * changes.
     */
    method CheckArgument(arg: uint8) returns (inRange: bool)
      requires Valid()
      modifies this
      ensures Valid()
      ensures inRange <==> arg as int < Width
      ensures good == old(good)
      ensures checksum == if inRange then old(checksum) + {arg as nat} else old(checksum)
    {
      if arg as int >= Width {
        return false;
      }
      checksum := checksum + {arg as nat};
      return true;
    }

    /** Every expected argument has been checked, and no other. */
    function IsGood(): (r: bool)
      requires Valid()
      reads this
      ensures r <==> ((forall k: nat :: k < Expected() ==> k in checksum)
                      && (forall k :: k in checksum ==> k < Expected()))
    {
      RangeMembers(|good|);
      good == checksum
    }
  }

  /**
   * The checks the constructor's VW_ASSERTs make: at least one and at most
   * 32 arguments.
   */
  method NewBitChecker(n: uint8) returns (r: Result<BitChecker, ArgError>)
    ensures n == 0 ==> r == Failure(NoChecks)
    ensures n as int > Width ==> r == Failure(TooManyChecks)
    ensures r.Success? <==> 1 <= n as int <= Width
    ensures r.Success? ==> (fresh(r.value) && r.value.Valid()
                            && r.value.Expected() == n as nat && r.value.checksum == {})
  {
    if n == 0 {
      return Failure(NoChecks);
    }
    if n as int > Width {
      return Failure(TooManyChecks);
    }
    var c := new BitChecker(n);
    return Success(c);
  }

  /**
   * The positions a run of check_argument calls sets, starting from
   * nothing, when every argument is in range.
   */
  function Checked(args: seq<uint8>): (s: set<nat>)
    requires forall i :: 0 <= i < |args| ==> args[i] as int < Width
    ensures forall k: nat :: k in s <==> exists i :: 0 <= i < |args| && args[i] as nat == k
    decreases |args|
  {
    if args == [] then {}
    else
      var rest := Checked(args[..|args| - 1]);
      assert forall i :: 0 <= i < |args| - 1 ==> args[..|args| - 1][i] == args[i];
      rest + {args[|args| - 1] as nat}
  }

  /**
   * A run of checks makes a checker for n good exactly when it names every
   * argument below n and nothing else, in any order and with repetitions.
   */
  lemma GoodIffAllNamed(args: seq<uint8>, n: nat)
    requires forall i :: 0 <= i < |args| ==> args[i] as int < Width
    ensures Checked(args) == Range(n)
        <==> ((forall k :: k in Range(n) ==> exists i :: 0 <= i < |args| && args[i] as nat == k)
              && (forall i :: 0 <= i < |args| ==> args[i] as nat < n))
  {
    RangeMembers(n);
    if Checked(args) == Range(n) {
      forall i | 0 <= i < |args|
        ensures args[i] as nat < n
      {
        assert args[i] as nat in Checked(args);
      }
    }
  }

  /**
   * check_argument on each of args in turn, starting from a checker with
   * nothing checked; every argument is in range, so none throws. The
   * checker ends up good exactly when args name every expected argument
   * and nothing else.
   */
  method RunChecks(c: BitChecker, args: seq<uint8>)
    requires c.Valid() && c.checksum == {}
    requires forall i :: 0 <= i < |args| ==> args[i] as int < Width
    modifies c
    ensures c.Valid() && c.good == old(c.good)
    ensures c.checksum == Checked(args)
    ensures c.IsGood()
        <==> ((forall k :: k in Range(c.Expected()) ==> exists i :: 0 <= i < |args| && args[i] as nat == k)
              && (forall i :: 0 <= i < |args| ==> args[i] as nat < c.Expected()))
  {
    for n := 0 to |args|
      invariant c.Valid() && c.good == old(c.good)
      invariant c.checksum == Checked(args[..n])
    {
      var inRange := c.CheckArgument(args[n]);
      assert args[..n + 1][..n] == args[..n];
    }
    assert args[..|args|] == args;
    GoodIffAllNamed(args, c.Expected());
  }

  /** Checking the two expected arguments in reverse order makes a checker for two good. */
  method TwoArgumentsInAnyOrder() returns (before: bool, after: bool, extra: bool)
    ensures !before && after && !extra
  {
    var c := new BitChecker(2);
    before := c.IsGood();
    var ok := c.CheckArgument(1);
    ok := c.CheckArgument(0);
    ok := c.CheckArgument(1);
    after := c.IsGood();
    ok := c.CheckArgument(5);
    extra := c.IsGood();
  }
}
