/**
  The Singleton mixin (tinyos3/utils/Singleton.py): every class of a
  hierarchy rooted at Singleton may hold one instance in its own
  `cInstance` slot; a class counts as instantiated when it or one of its
  bases holds one.

  Classes are numbered in the order they were defined, so every base of a
  class has a smaller number than the class itself; class 0 is Singleton.
  The attribute search through the bases is a depth-first search in the
  order the bases are listed.
*/
module Singleton {
  import opened Wrappers

  /** A class: its Singleton bases, in order, and the number of arguments its __init__ takes besides self. */
  datatype ClassInfo = ClassInfo(bases: seq<nat>, arity: nat)

  /** An object: a serial number standing for its identity, its class and the arguments it was built from. */
  datatype Instance = Instance(id: nat, cls: nat, args: seq<string>)

  /** The SingletonException raised, by cause, and the TypeError of __init__ called with the wrong arguments. */
  datatype SingletonError =
    | NewOverridden          // a class body defines __new__
    | DirectInstantiation    // the class itself was called
    | ArgsAfterConstruction  // getInstance with arguments once instantiated
    | ArgsRequired           // first getInstance without the arguments __init__ needs
    | WrongArgCount          // __init__ given a different number of arguments

  /** Every base of a class was defined before it. */
  predicate WellFormed(classes: seq<ClassInfo>) {
    forall c, i :: 0 <= c < |classes| && 0 <= i < |classes[c].bases| ==> classes[c].bases[i] < c
  }

  predicate Below(cs: seq<nat>, bound: nat) {
    forall i :: 0 <= i < |cs| ==> cs[i] < bound
  }

  /** `small` holds some of the slots of `big`, unchanged. */
  predicate Submap(small: map<nat, Instance>, big: map<nat, Instance>) {
    small.Keys <= big.Keys && forall k :: k in small ==> small[k] == big[k]
  }

  /** Class `a` is `c` itself or, through the bases, one of its ancestors. */
  predicate Ancestor(classes: seq<ClassInfo>, a: nat, c: nat)
    requires WellFormed(classes) && c < |classes|
    decreases c
  {
    a == c || exists i :: 0 <= i < |classes[c].bases| && Ancestor(classes, a, classes[c].bases[i])
  }

  // ---------------------------------------------------------------------------
  // Slot lookup (hasattr(cls, "cInstance"), lines 120-122)

  /** The class whose slot `c` sees: its own, or the first found through its bases. */
  function Lookup(classes: seq<ClassInfo>, slots: map<nat, Instance>, c: nat): (r: Option<nat>)
    requires WellFormed(classes) && c < |classes|
    ensures r.Some? ==> r.value in slots && r.value <= c && Ancestor(classes, r.value, c)
    ensures c in slots ==> r == Some(c)
    decreases c, 1
  {
    if c in slots then Some(c) else LookupAmong(classes, slots, classes[c].bases, c)
  }

  function LookupAmong(classes: seq<ClassInfo>, slots: map<nat, Instance>, cs: seq<nat>, bound: nat): (r: Option<nat>)
    requires WellFormed(classes) && bound <= |classes| && Below(cs, bound)
    ensures r.Some? ==> r.value in slots && r.value < bound
    ensures r.Some? ==> exists i :: 0 <= i < |cs| && Ancestor(classes, r.value, cs[i])
    decreases bound, 0, |cs|
  {
    if cs == [] then None
    else
      var r := Lookup(classes, slots, cs[0]);
      if r.Some? then r else LookupAmong(classes, slots, cs[1..], bound)
  }

  /** hasattr(cls, "cInstance"): the lookup finds a slot. */
  predicate Instantiated(classes: seq<ClassInfo>, slots: map<nat, Instance>, c: nat)
    requires WellFormed(classes) && c < |classes|
  {
    Lookup(classes, slots, c).Some?
  }

  lemma {:induction false} LookupAmongNone(classes: seq<ClassInfo>, slots: map<nat, Instance>, cs: seq<nat>, bound: nat)
    requires WellFormed(classes) && bound <= |classes| && Below(cs, bound)
    ensures LookupAmong(classes, slots, cs, bound).None? <==>
      forall i :: 0 <= i < |cs| ==> Lookup(classes, slots, cs[i]).None?
    decreases |cs|
  {
    if cs != [] {
      LookupAmongNone(classes, slots, cs[1..], bound);
      assert forall i :: 1 <= i < |cs| ==> cs[i] == cs[1..][i - 1];
    }
  }

  /** A class is instantiated exactly when it holds a slot or one of its bases is instantiated. */
  lemma InstantiatedThroughBases(classes: seq<ClassInfo>, slots: map<nat, Instance>, c: nat)
    requires WellFormed(classes) && c < |classes|
    ensures Instantiated(classes, slots, c) <==>
      c in slots || exists i :: 0 <= i < |classes[c].bases| && Instantiated(classes, slots, classes[c].bases[i])
  {
    LookupAmongNone(classes, slots, classes[c].bases, c);
  }

  /** A class is instantiated exactly when it or one of its ancestors holds a slot. */
  lemma InstantiatedIffAncestor(classes: seq<ClassInfo>, slots: map<nat, Instance>, c: nat)
    requires WellFormed(classes) && c < |classes|
    ensures Instantiated(classes, slots, c) <==> exists a :: a in slots && Ancestor(classes, a, c)
  {
    forall a | a in slots && Ancestor(classes, a, c)
      ensures Instantiated(classes, slots, c)
    {
      AncestorInstantiates(classes, slots, a, c);
    }
  }

  lemma {:induction false} AncestorInstantiates(classes: seq<ClassInfo>, slots: map<nat, Instance>, a: nat, c: nat)
    requires WellFormed(classes) && c < |classes|
    requires a in slots && Ancestor(classes, a, c)
    ensures Instantiated(classes, slots, c)
    decreases c
  {
    if a != c && c !in slots {
      var i :| 0 <= i < |classes[c].bases| && Ancestor(classes, a, classes[c].bases[i]);
      AncestorInstantiates(classes, slots, a, classes[c].bases[i]);
      LookupAmongNone(classes, slots, classes[c].bases, c);
    }
  }

  // ---------------------------------------------------------------------------
  // getInstance (lines 98-118)

  datatype GetResult = GetResult(result: Result<Instance, SingletonError>, slots: map<nat, Instance>, next: nat)

  /**
    getInstance on class `c` with arguments `args`, `next` being the
    identity the next new object gets.
  */
  function GetInstance(classes: seq<ClassInfo>, slots: map<nat, Instance>, next: nat, c: nat, args: seq<string>): (r: GetResult)
    requires WellFormed(classes) && c < |classes|
  {
    var found := Lookup(classes, slots, c);
    if found.Some? then
      if |args| != 0 then GetResult(Err(ArgsAfterConstruction), slots, next)
      else GetResult(Ok(slots[found.value]), slots, next)
    else if classes[c].arity > 0 && |args| <= 0 then GetResult(Err(ArgsRequired), slots, next)
    else if |args| != classes[c].arity then GetResult(Err(WrongArgCount), slots, next)
    else
      var instance := Instance(next, c, args);
      GetResult(Ok(instance), slots[c := instance], next + 1)
  }

  /** Once getInstance has returned an instance, a call without arguments returns that same instance and changes nothing. */
  lemma RepeatedGetReturnsSame(classes: seq<ClassInfo>, slots: map<nat, Instance>, next: nat, c: nat, args: seq<string>)
    requires WellFormed(classes) && c < |classes|
    requires GetInstance(classes, slots, next, c, args).result.Ok?
    ensures var first := GetInstance(classes, slots, next, c, args);
      GetInstance(classes, first.slots, first.next, c, []) == GetResult(first.result, first.slots, first.next)
  {
  }

  /** The first call with the arguments __init__ takes builds a new object of class c from them and stores it in c's slot. */
  lemma FirstGetConstructs(classes: seq<ClassInfo>, slots: map<nat, Instance>, next: nat, c: nat, args: seq<string>)
    requires WellFormed(classes) && c < |classes|
    requires !Instantiated(classes, slots, c) && |args| == classes[c].arity
    ensures var first := GetInstance(classes, slots, next, c, args);
      first.result == Ok(Instance(next, c, args)) &&
      first.slots == slots[c := Instance(next, c, args)] && first.next == next + 1
  {
  }

  /** Without an instance, an __init__ that needs arguments and none given: SingletonException, nothing stored. */
  lemma MissingArgsRaise(classes: seq<ClassInfo>, slots: map<nat, Instance>, next: nat, c: nat)
    requires WellFormed(classes) && c < |classes|
    requires !Instantiated(classes, slots, c) && classes[c].arity > 0
    ensures GetInstance(classes, slots, next, c, []) == GetResult(Err(ArgsRequired), slots, next)
  {
  }

  /** Once instantiated, a call with arguments raises and leaves the stored instance as it was. */
  lemma ArgsAfterConstructionRaise(classes: seq<ClassInfo>, slots: map<nat, Instance>, next: nat, c: nat, args: seq<string>)
    requires WellFormed(classes) && c < |classes|
    requires Instantiated(classes, slots, c) && args != []
    ensures GetInstance(classes, slots, next, c, args) == GetResult(Err(ArgsAfterConstruction), slots, next)
  {
  }

  /** getInstance only ever adds c's own slot: every other slot is kept. */
  lemma GetKeepsOtherSlots(classes: seq<ClassInfo>, slots: map<nat, Instance>, next: nat, c: nat, args: seq<string>)
    requires WellFormed(classes) && c < |classes|
    ensures var r := GetInstance(classes, slots, next, c, args);
      Submap(slots, r.slots) && r.slots.Keys <= slots.Keys + {c} &&
      (r.slots != slots <==> !Instantiated(classes, slots, c) && r.result.Ok?)
  {
  }

  // ---------------------------------------------------------------------------
  // _forgetClassInstanceReferenceForTesting (lines 128-145)

  /** Delete c's own slot, or else forget in each of its bases in turn. */
  function Forget(classes: seq<ClassInfo>, slots: map<nat, Instance>, c: nat): (r: map<nat, Instance>)
    requires WellFormed(classes) && c < |classes|
    ensures Submap(r, slots)
    decreases c, 1
  {
    if c in slots then slots - {c} else ForgetAll(classes, slots, classes[c].bases, c)
  }

  /** Forget in each class of `cs`, first to last. */
  function ForgetAll(classes: seq<ClassInfo>, slots: map<nat, Instance>, cs: seq<nat>, bound: nat): (r: map<nat, Instance>)
    requires WellFormed(classes) && bound <= |classes| && Below(cs, bound)
    ensures Submap(r, slots)
    decreases bound, 0, |cs|
  {
    if cs == [] then slots
    else Forget(classes, ForgetAll(classes, slots, cs[..|cs| - 1], bound), cs[|cs| - 1])
  }

  /** Forgetting in a class that is not instantiated changes nothing. */
  lemma {:induction false} ForgetNothing(classes: seq<ClassInfo>, slots: map<nat, Instance>, c: nat)
    requires WellFormed(classes) && c < |classes|
    requires !Instantiated(classes, slots, c)
    ensures Forget(classes, slots, c) == slots
    decreases c, 1
  {
    LookupAmongNone(classes, slots, classes[c].bases, c);
    ForgetAllNothing(classes, slots, classes[c].bases, c);
  }

  lemma {:induction false} ForgetAllNothing(classes: seq<ClassInfo>, slots: map<nat, Instance>, cs: seq<nat>, bound: nat)
    requires WellFormed(classes) && bound <= |classes| && Below(cs, bound)
    requires forall i :: 0 <= i < |cs| ==> Lookup(classes, slots, cs[i]).None?
    ensures ForgetAll(classes, slots, cs, bound) == slots
    decreases bound, 0, |cs|
  {
    if cs != [] {
      ForgetAllNothing(classes, slots, cs[..|cs| - 1], bound);
      ForgetNothing(classes, slots, cs[|cs| - 1]);
    }
  }

  /** Forgetting over more classes removes at least what forgetting over a prefix of them removes. */
  lemma {:induction false} ForgetAllPrefix(classes: seq<ClassInfo>, slots: map<nat, Instance>, cs: seq<nat>, bound: nat, k: nat)
    requires WellFormed(classes) && bound <= |classes| && Below(cs, bound) && k <= |cs|
    ensures Submap(ForgetAll(classes, slots, cs, bound), ForgetAll(classes, slots, cs[..k], bound))
    decreases |cs| - k
  {
    if k < |cs| {
      ForgetAllPrefix(classes, slots, cs[..|cs| - 1], bound, k);
      assert cs[..|cs| - 1][..k] == cs[..k];
    } else {
      assert cs[..k] == cs;
    }
  }

  /** The first class of `cs` whose lookup finds a slot: every class before it is not instantiated. */
  lemma {:induction false} FirstFound(classes: seq<ClassInfo>, slots: map<nat, Instance>, cs: seq<nat>, bound: nat) returns (j: nat)
    requires WellFormed(classes) && bound <= |classes| && Below(cs, bound)
    requires LookupAmong(classes, slots, cs, bound).Some?
    ensures j < |cs| && Lookup(classes, slots, cs[j]) == LookupAmong(classes, slots, cs, bound)
    ensures forall i :: 0 <= i < j ==> Lookup(classes, slots, cs[i]).None?
    decreases |cs|
  {
    if Lookup(classes, slots, cs[0]).Some? {
      j := 0;
    } else {
      var j' := FirstFound(classes, slots, cs[1..], bound);
      j := j' + 1;
      assert forall i :: 1 <= i < j ==> cs[i] == cs[1..][i - 1];
    }
  }

  /** Forgetting in c removes the slot c sees, even when it is held by a base. */
  lemma {:induction false} ForgetRemovesVisible(classes: seq<ClassInfo>, slots: map<nat, Instance>, c: nat)
    requires WellFormed(classes) && c < |classes|
    requires Instantiated(classes, slots, c)
    ensures Lookup(classes, slots, c).value !in Forget(classes, slots, c)
    decreases c, 1
  {
    if c !in slots {
      ForgetAllRemoves(classes, slots, classes[c].bases, c);
    }
  }

  lemma {:induction false} ForgetAllRemoves(classes: seq<ClassInfo>, slots: map<nat, Instance>, cs: seq<nat>, bound: nat)
    requires WellFormed(classes) && bound <= |classes| && Below(cs, bound)
    requires LookupAmong(classes, slots, cs, bound).Some?
    ensures LookupAmong(classes, slots, cs, bound).value !in ForgetAll(classes, slots, cs, bound)
    decreases bound, 0, |cs|
  {
    var j := FirstFound(classes, slots, cs, bound);
    var x := LookupAmong(classes, slots, cs, bound).value;
    var prefix := cs[..j];
    assert forall i :: 0 <= i < |prefix| ==> prefix[i] == cs[i];
    ForgetAllNothing(classes, slots, prefix, bound);
    assert cs[..j + 1][..j] == prefix;
    ForgetRemovesVisible(classes, slots, cs[j]);
    assert x !in ForgetAll(classes, slots, cs[..j + 1], bound);
    ForgetAllPrefix(classes, slots, cs, bound, j + 1);
  }

  // ---------------------------------------------------------------------------
  // The running program: its classes and the slots they hold

  class Runtime {
    var classes: seq<ClassInfo>
    var slots: map<nat, Instance>
    /** The identity the next object created gets. */
    var next: nat

    ghost predicate Valid()
      reads this
    {
      WellFormed(classes) && |classes| > 0
    }

    /** A program in which only Singleton itself is defined and nothing is instantiated. */
    constructor ()
      ensures Valid() && classes == [ClassInfo([], 0)] && slots == map[] && next == 0
    {
      classes := [ClassInfo([], 0)];
      slots := map[];
      next := 0;
    }

    /**
      MetaSingleton.__new__ (lines 84-89): define a subclass of existing
      classes, refused when its body defines __new__.
    */
    method DefineClass(bases: seq<nat>, arity: nat, definesNew: bool) returns (r: Result<nat, SingletonError>)
      requires Valid() && bases != [] && Below(bases, |classes|)
      modifies this`classes
      ensures Valid()
      ensures definesNew ==> r == Err(NewOverridden) && classes == old(classes)
      ensures !definesNew ==> r == Ok(|old(classes)|) && classes == old(classes) + [ClassInfo(bases, arity)]
    {
      if definesNew {
        return Err(NewOverridden);
      }
      r := Ok(|classes|);
      classes := classes + [ClassInfo(bases, arity)];
    }

    /** MetaSingleton.__call__ (lines 91-94): calling a Singleton class always raises. */
    method Call(c: nat, args: seq<string>) returns (r: Result<Instance, SingletonError>)
      ensures r == Err(DirectInstantiation)
    {
      r := Err(DirectInstantiation);
    }

    /** _isInstantiated (lines 120-122): c or one of its ancestors holds an instance. */
    method IsInstantiated(c: nat) returns (b: bool)
      requires Valid() && c < |classes|
      ensures b == Instantiated(classes, slots, c)
      ensures b <==> exists a :: a in slots && Ancestor(classes, a, c)
    {
      b := Lookup(classes, slots, c).Some?;
      InstantiatedIffAncestor(classes, slots, c);
    }

    /** getInstance (lines 98-118). */
    method GetInstanceOf(c: nat, args: seq<string>) returns (r: Result<Instance, SingletonError>)
      requires Valid() && c < |classes|
      modifies this`slots, this`next
      ensures GetInstance(classes, old(slots), old(next), c, args) == GetResult(r, slots, next)
    {
      var instantiated := IsInstantiated(c);
      if instantiated {
        if |args| != 0 {
          return Err(ArgsAfterConstruction);
        }
      } else {
        if classes[c].arity > 0 && |args| <= 0 {
          return Err(ArgsRequired);
        }
        if |args| != classes[c].arity {
          return Err(WrongArgCount);
        }
        var instance := Instance(next, c, args);
        next := next + 1;
        slots := slots[c := instance];
      }
      r := Ok(slots[Lookup(classes, slots, c).value]);
    }

    /** _forgetClassInstanceReferenceForTesting (lines 128-145). */
    method ForgetInstance(c: nat)
      requires Valid() && c < |classes|
      modifies this`slots
      ensures slots == Forget(classes, old(slots), c)
      decreases c
    {
      if c in slots {
        slots := slots - {c};
        return;
      }
      var bases := classes[c].bases;
      for i := 0 to |bases|
        invariant slots == ForgetAll(classes, old(slots), bases[..i], c)
      {
        assert bases[..i + 1][..i] == bases[..i];
        ForgetInstance(bases[i]);
      }
      assert bases[..|bases|] == bases;
    }
  }

  // ---------------------------------------------------------------------------
  // The scenarios of tests/test_singleton.py

  /** Classes Singleton, A(Singleton) and B with an __init__ of two arguments. */
  const TwoArgClasses: seq<ClassInfo> := [ClassInfo([], 0), ClassInfo([0], 0), ClassInfo([0], 2)]

  /** testInstantiateWithMultiArgConstructor and testTryToInstantiateWithoutNeededArgs. */
  lemma TwoArgScenario()
    ensures WellFormed(TwoArgClasses)
    ensures GetInstance(TwoArgClasses, map[], 0, 2, []).result == Err(ArgsRequired)
    ensures var b1 := GetInstance(TwoArgClasses, map[], 0, 2, ["arg1 value", "arg2 value"]);
      b1.result == Ok(Instance(0, 2, ["arg1 value", "arg2 value"])) &&
      GetInstance(TwoArgClasses, b1.slots, b1.next, 2, []).result == b1.result
  {
  }

  /** The check of getInstance (lines 105-109): once B holds an instance, getInstance with arguments is refused. */
  lemma TwoArgArgsRefused()
    ensures WellFormed(TwoArgClasses)
    ensures var b1 := GetInstance(TwoArgClasses, map[], 0, 2, ["arg1 value", "arg2 value"]);
      GetInstance(TwoArgClasses, b1.slots, b1.next, 2, ["arg1 value", "arg2 value"]) ==
        GetResult(Err(ArgsAfterConstruction), b1.slots, b1.next)
  {
  }

  /**
    testDontAllowArgsAfterConstruction: once B.getInstance has built B's
    instance from two arguments, calling B itself with them still raises,
    as every direct call of a Singleton class does.
  */
  method DirectCallScenario() returns (first: Result<Instance, SingletonError>, call: Result<Instance, SingletonError>)
    ensures first == Ok(Instance(0, 1, ["arg1 value", "arg2 value"]))
    ensures call == Err(DirectInstantiation)
  {
    var runtime := new Runtime();
    var b := runtime.DefineClass([0], 2, false);
    assert b == Ok(1) && runtime.classes == [ClassInfo([], 0), ClassInfo([0], 2)];
    first := runtime.GetInstanceOf(1, ["arg1 value", "arg2 value"]);
    call := runtime.Call(1, ["arg1 value", "arg2 value"]);
  }

  /** Classes Singleton, A(Singleton) and B(A), none taking arguments. */
  const ChainClasses: seq<ClassInfo> := [ClassInfo([], 0), ClassInfo([0], 0), ClassInfo([1], 0)]

  /**
    test_forgetClassInstanceReferenceForTesting: after forgetting A's
    instance B gets one of its own, and forgetting on B clears an instance
    held by A.
  */
  lemma ForgetScenario()
    ensures WellFormed(ChainClasses)
    ensures var a := GetInstance(ChainClasses, map[], 0, 1, []);
      a.result.Ok? && a.result.value.cls == 1 &&
      var s1 := Forget(ChainClasses, a.slots, 1);
      var b := GetInstance(ChainClasses, s1, a.next, 2, []);
      b.result.Ok? && b.result.value.cls == 2 &&
      var s2 := Forget(ChainClasses, b.slots, 2);
      var a2 := GetInstance(ChainClasses, s2, b.next, 1, []);
      a2.result.Ok? && a2.result.value.cls == 1 &&
      var s3 := Forget(ChainClasses, a2.slots, 2);
      var b2 := GetInstance(ChainClasses, s3, a2.next, 2, []);
      b2.result.Ok? && b2.result.value.cls == 2
  {
    var a := GetInstance(ChainClasses, map[], 0, 1, []);
    assert a.slots == map[1 := Instance(0, 1, [])];
    var s1 := Forget(ChainClasses, a.slots, 1);
    assert s1 == map[];
    var b := GetInstance(ChainClasses, s1, a.next, 2, []);
    assert Lookup(ChainClasses, s1, 2).None? by {
      assert [1][1..] == [] && [0][1..] == [];
    }
    assert b.slots == map[2 := Instance(1, 2, [])];
    var s2 := Forget(ChainClasses, b.slots, 2);
    assert s2 == map[];
    var a2 := GetInstance(ChainClasses, s2, b.next, 1, []);
    assert a2.slots == map[1 := Instance(2, 1, [])];
    var s3 := Forget(ChainClasses, a2.slots, 2);
    assert s3 == map[] by {
      assert ChainClasses[2].bases[..0] == [];
      assert ChainClasses[2].bases[..1][..0] == [];
      assert ForgetAll(ChainClasses, a2.slots, [], 2) == a2.slots;
    }
    assert Lookup(ChainClasses, s3, 2).None? by {
      assert [1][1..] == [] && [0][1..] == [];
    }
  }
}
