/** The attempts of a pilot configuration, and exactly when their keys are distinct. */
module PilotSpecs {
  import opened Text

  datatype Spec = Spec(instance: string, arm: string, repeat: nat)

  function Digits(n: nat): string {
    if n < 10 then [Digit(n)] else Digits(n / 10) + [Digit(n % 10)]
  }

  function Digit(d: nat): char
    requires d < 10
  {
    "0123456789"[d]
  }

  /** `attemptKey` */
  function AttemptKey(s: Spec): string {
    s.instance + ":" + s.arm + ":" + Digits(s.repeat)
  }

  function Keys(specs: seq<Spec>): seq<string> {
    seq(|specs|, i requires 0 <= i < |specs| => AttemptKey(specs[i]))
  }

  // ---------------------------------------------------------------- the three loops

  function Repeats(instance: string, arm: string, n: nat): seq<Spec> {
    if n == 0 then [] else Repeats(instance, arm, n - 1) + [Spec(instance, arm, n - 1)]
  }

  function ArmRows(instance: string, arms: seq<string>, n: nat): seq<Spec> {
    if arms == [] then []
    else ArmRows(instance, arms[..|arms| - 1], n) + Repeats(instance, arms[|arms| - 1], n)
  }

  function Grid(instances: seq<string>, arms: seq<string>, n: nat): seq<Spec> {
    if instances == [] then []
    else Grid(instances[..|instances| - 1], arms, n) + ArmRows(instances[|instances| - 1], arms, n)
  }

  function Count(repeats: int): nat {
    if repeats < 0 then 0 else repeats
  }

  /** The two inner loops, for one instance. */
  method AddRows(specs: seq<Spec>, instance: string, arms: seq<string>, repeats: int) returns (specs': seq<Spec>)
    ensures specs' == specs + ArmRows(instance, arms, Count(repeats))
  {
    specs' := specs;
    for a := 0 to |arms|
      invariant specs' == specs + ArmRows(instance, arms[..a], Count(repeats))
    {
      ghost var row := specs';
      var repeat := 0;
      while repeat < repeats
        invariant 0 <= repeat <= Count(repeats)
        invariant specs' == row + Repeats(instance, arms[a], repeat)
      {
        specs' := specs' + [Spec(instance, arms[a], repeat)];
        repeat := repeat + 1;
      }
      assert arms[..a + 1][..a] == arms[..a];
    }
    assert arms[..|arms|] == arms;
  }

  /** `buildAttemptSpecs` */
  method BuildAttemptSpecs(instances: seq<string>, arms: seq<string>, repeats: int) returns (specs: seq<Spec>)
    ensures specs == Grid(instances, arms, Count(repeats))
  {
    specs := [];
    for i := 0 to |instances|
      invariant specs == Grid(instances[..i], arms, Count(repeats))
    {
      specs := AddRows(specs, instances[i], arms, repeats);
      assert instances[..i + 1][..i] == instances[..i];
    }
    assert instances[..|instances|] == instances;
  }

  lemma {:induction false} InRepeats(instance: string, arm: string, n: nat, s: Spec)
    ensures s in Repeats(instance, arm, n) <==> s.instance == instance && s.arm == arm && s.repeat < n
  {
    if n > 0 {
      InRepeats(instance, arm, n - 1, s);
    }
  }

  lemma {:induction false} InRows(instance: string, arms: seq<string>, n: nat, s: Spec)
    ensures s in ArmRows(instance, arms, n) <==> s.instance == instance && s.arm in arms && s.repeat < n
  {
    if arms != [] {
      var k := |arms| - 1;
      InRows(instance, arms[..k], n, s);
      InRepeats(instance, arms[k], n, s);
      assert arms == arms[..k] + [arms[k]];
    }
  }

  /** The specs are exactly the combinations of an instance, an arm and a repeat. */
  lemma {:induction false} InGrid(instances: seq<string>, arms: seq<string>, n: nat, s: Spec)
    ensures s in Grid(instances, arms, n) <==> s.instance in instances && s.arm in arms && s.repeat < n
  {
    if instances != [] {
      var k := |instances| - 1;
      InGrid(instances[..k], arms, n, s);
      InRows(instances[k], arms, n, s);
      assert instances == instances[..k] + [instances[k]];
    }
  }

  // ---------------------------------------------------------------- the order of the attempts

  lemma {:induction false} RepeatsAt(instance: string, arm: string, n: nat, c: nat)
    ensures |Repeats(instance, arm, n)| == n
    ensures c < n ==> Repeats(instance, arm, n)[c] == Spec(instance, arm, c)
  {
    if n > 0 {
      RepeatsAt(instance, arm, n - 1, c);
    }
  }

  lemma ConcatAt(front: seq<Spec>, back: seq<Spec>, i: nat)
    ensures i < |front| ==> (front + back)[i] == front[i]
    ensures i < |back| ==> (front + back)[|front| + i] == back[i]
  {
  }

  /** Behind the attempts of the arms before it, an arm has its repeats in order. */
  lemma {:induction false} ArmRowsAt(instance: string, arms: seq<string>, n: nat, b: nat, c: nat, at: nat)
    requires b < |arms| && c < n && at == |ArmRows(instance, arms[..b], n)|
    ensures at + c < |ArmRows(instance, arms, n)| && ArmRows(instance, arms, n)[at + c] == Spec(instance, arms[b], c)
    decreases |arms|
  {
    var k := |arms| - 1;
    var front, back := ArmRows(instance, arms[..k], n), Repeats(instance, arms[k], n);
    assert ArmRows(instance, arms, n) == front + back;
    if b < k {
      assert arms[..k][..b] == arms[..b];
      ArmRowsAt(instance, arms[..k], n, b, c, at);
      ConcatAt(front, back, at + c);
    } else {
      RepeatsAt(instance, arms[k], n, c);
      ConcatAt(front, back, c);
    }
  }

  /** Behind the attempts of the instances before it, an instance has those of its arms. */
  lemma {:induction false} GridFrom(instances: seq<string>, arms: seq<string>, n: nat, a: nat, d: nat, at: nat)
    requires a < |instances| && d < |ArmRows(instances[a], arms, n)| && at == |Grid(instances[..a], arms, n)|
    ensures at + d < |Grid(instances, arms, n)| && Grid(instances, arms, n)[at + d] == ArmRows(instances[a], arms, n)[d]
    decreases |instances|
  {
    var k := |instances| - 1;
    var front, back := Grid(instances[..k], arms, n), ArmRows(instances[k], arms, n);
    assert Grid(instances, arms, n) == front + back;
    if a < k {
      assert instances[..k][..a] == instances[..a];
      GridFrom(instances[..k], arms, n, a, d, at);
      ConcatAt(front, back, at + d);
    } else {
      ConcatAt(front, back, d);
    }
  }

  // ---------------------------------------------------------------- distinct specs

  ghost predicate Disjoint<T(!new)>(a: seq<T>, b: seq<T>) {
    forall x :: x in a ==> x !in b
  }

  lemma DistinctConcat<T(!new)>(a: seq<T>, b: seq<T>)
    ensures Distinct(a + b) <==> Distinct(a) && Distinct(b) && Disjoint(a, b)
  {
    var c := a + b;
    assert forall i :: 0 <= i < |a| ==> c[i] == a[i];
    assert forall j :: 0 <= j < |b| ==> c[|a| + j] == b[j];
    if Distinct(c) {
      forall x | x in a
        ensures x !in b
      {
        var i :| 0 <= i < |a| && a[i] == x;
        assert c[i] == x;
      }
    }
    if Distinct(a) && Distinct(b) && Disjoint(a, b) {
      forall i, j | 0 <= i < j < |c|
        ensures c[i] != c[j]
      {
        if i < |a| <= j {
          assert c[i] in a && c[j] == b[j - |a|];
        }
      }
    }
  }

  lemma DistinctAppend<T(!new)>(a: seq<T>, x: T)
    ensures Distinct(a + [x]) <==> Distinct(a) && x !in a
  {
    DistinctConcat(a, [x]);
  }

  lemma {:induction false} RepeatsDistinct(instance: string, arm: string, n: nat)
    ensures Distinct(Repeats(instance, arm, n))
  {
    if n > 0 {
      RepeatsDistinct(instance, arm, n - 1);
      InRepeats(instance, arm, n - 1, Spec(instance, arm, n - 1));
      DistinctAppend(Repeats(instance, arm, n - 1), Spec(instance, arm, n - 1));
    }
  }

  /** Rows of different arms share no spec; rows of one arm share all of them. */
  lemma RowsMeet(instance: string, arms: seq<string>, arm: string, n: nat)
    ensures Disjoint(ArmRows(instance, arms, n), Repeats(instance, arm, n)) <==> n == 0 || arm !in arms
  {
    forall s
      ensures s in ArmRows(instance, arms, n) && s in Repeats(instance, arm, n)
              <==> s.instance == instance && s.arm == arm && arm in arms && s.repeat < n
    {
      InRows(instance, arms, n, s);
      InRepeats(instance, arm, n, s);
    }
    if n > 0 && arm in arms {
      var s := Spec(instance, arm, 0);
      assert s in ArmRows(instance, arms, n) && s in Repeats(instance, arm, n);
    }
  }

  lemma {:induction false} RowsDistinct(instance: string, arms: seq<string>, n: nat)
    ensures Distinct(ArmRows(instance, arms, n)) <==> n == 0 || Distinct(arms)
  {
    if arms != [] {
      var k := |arms| - 1;
      RowsDistinct(instance, arms[..k], n);
      RepeatsDistinct(instance, arms[k], n);
      RowsMeet(instance, arms[..k], arms[k], n);
      DistinctConcat(ArmRows(instance, arms[..k], n), Repeats(instance, arms[k], n));
      DistinctAppend(arms[..k], arms[k]);
      assert arms == arms[..k] + [arms[k]];
    }
  }

  lemma GridMeets(instances: seq<string>, instance: string, arms: seq<string>, n: nat)
    ensures Disjoint(Grid(instances, arms, n), ArmRows(instance, arms, n))
        <==> n == 0 || arms == [] || instance !in instances
  {
    forall s
      ensures s in Grid(instances, arms, n) && s in ArmRows(instance, arms, n)
              <==> s.instance == instance && instance in instances && s.arm in arms && s.repeat < n
    {
      InGrid(instances, arms, n, s);
      InRows(instance, arms, n, s);
    }
    if n > 0 && arms != [] && instance in instances {
      var s := Spec(instance, arms[0], 0);
      assert s in Grid(instances, arms, n) && s in ArmRows(instance, arms, n);
    }
  }

  lemma {:induction false} GridDistinct(instances: seq<string>, arms: seq<string>, n: nat)
    ensures Distinct(Grid(instances, arms, n))
            <==> n == 0 || arms == [] || instances == [] || (Distinct(instances) && Distinct(arms))
  {
    if instances != [] {
      var k := |instances| - 1;
      GridDistinct(instances[..k], arms, n);
      RowsDistinct(instances[k], arms, n);
      GridMeets(instances[..k], instances[k], arms, n);
      DistinctConcat(Grid(instances[..k], arms, n), ArmRows(instances[k], arms, n));
      DistinctAppend(instances[..k], instances[k]);
      assert instances == instances[..k] + [instances[k]];
    }
  }

  // ---------------------------------------------------------------- distinct keys

  predicate PlainArms(arms: seq<string>) {
    forall i :: 0 <= i < |arms| ==> ':' !in arms[i]
  }

  predicate Trivial(instances: seq<string>, arms: seq<string>, repeats: int) {
    repeats <= 0 || arms == [] || instances == []
  }

  lemma SplitAtLastColon(a: string, b: string, c: string, d: string)
    requires ':' !in b && ':' !in d && a + ":" + b == c + ":" + d
    ensures a == c && b == d
  {
    var s := a + ":" + b;
    assert s[|a|] == ':' && s[|c|] == ':';
    assert forall i :: |a| < i < |s| ==> s[i] == b[i - |a| - 1];
    assert forall i :: |c| < i < |s| ==> s[i] == d[i - |c| - 1];
    assert |a| == |c|;
    assert a == s[..|a|] && c == s[..|c|];
    assert b == s[|a| + 1..] && d == s[|c| + 1..];
  }

  lemma {:induction false} DigitsAreDigits(n: nat)
    ensures ':' !in Digits(n) && Digits(n) != []
  {
    if n >= 10 {
      DigitsAreDigits(n / 10);
    }
  }

  lemma DigitInjective(a: nat, b: nat)
    requires a < 10 && b < 10 && Digit(a) == Digit(b)
    ensures a == b
  {
  }

  lemma {:induction false} DigitsInjective(a: nat, b: nat)
    requires Digits(a) == Digits(b)
    ensures a == b
  {
    DigitsAreDigits(a / 10);
    DigitsAreDigits(b / 10);
    var s := Digits(a);
    assert s[|s| - 1] == Digit(a % 10) == Digit(b % 10);
    DigitInjective(a % 10, b % 10);
    if a >= 10 && b >= 10 {
      assert Digits(a / 10) == s[..|s| - 1] == Digits(b / 10);
      DigitsInjective(a / 10, b / 10);
    }
  }

  /** Attempts of arms without a colon in their name are told apart by their keys, whatever
      the instance ids. */
  lemma AttemptKeyInjective(x: Spec, y: Spec)
    requires ':' !in x.arm && ':' !in y.arm && AttemptKey(x) == AttemptKey(y)
    ensures x == y
  {
    DigitsAreDigits(x.repeat);
    DigitsAreDigits(y.repeat);
    SplitAtLastColon(x.instance + ":" + x.arm, Digits(x.repeat), y.instance + ":" + y.arm, Digits(y.repeat));
    SplitAtLastColon(x.instance, x.arm, y.instance, y.arm);
    DigitsInjective(x.repeat, y.repeat);
  }

  /** The text before the last colon. */
  function BeforeLastColon(s: string): string {
    if s == "" then ""
    else if s[|s| - 1] == ':' then s[..|s| - 1]
    else BeforeLastColon(s[..|s| - 1])
  }

  /** The instance id inside an attempt key. */
  function InstanceOf(key: string): string {
    BeforeLastColon(BeforeLastColon(key))
  }

  lemma {:induction false} CutAtLastColon(a: string, b: string)
    requires ':' !in b
    ensures BeforeLastColon(a + ":" + b) == a
    decreases |b|
  {
    var s := a + ":" + b;
    if b == "" {
      assert s[..|s| - 1] == a;
    } else {
      assert s[|s| - 1] == b[|b| - 1];
      assert s[..|s| - 1] == a + ":" + b[..|b| - 1];
      CutAtLastColon(a, b[..|b| - 1]);
    }
  }

  lemma InstanceOfKey(s: Spec)
    requires ':' !in s.arm
    ensures InstanceOf(AttemptKey(s)) == s.instance
  {
    DigitsAreDigits(s.repeat);
    CutAtLastColon(s.instance + ":" + s.arm, Digits(s.repeat));
    CutAtLastColon(s.instance, s.arm);
  }

  lemma KeysDistinct(specs: seq<Spec>)
    requires forall i :: 0 <= i < |specs| ==> ':' !in specs[i].arm
    ensures Distinct(Keys(specs)) <==> Distinct(specs)
  {
    var keys := Keys(specs);
    assert forall i :: 0 <= i < |specs| ==> keys[i] == AttemptKey(specs[i]);
    if Distinct(specs) {
      forall i, j | 0 <= i < j < |keys|
        ensures keys[i] != keys[j]
      {
        if keys[i] == keys[j] {
          AttemptKeyInjective(specs[i], specs[j]);
        }
      }
    }
    if Distinct(keys) {
      forall i, j | 0 <= i < j < |specs|
        ensures specs[i] != specs[j]
      {
        assert keys[i] != keys[j];
      }
    }
  }

  /** The attempts of a configuration have pairwise different keys exactly if no instance id
      and no arm name occurs twice (or there are no attempts at all).  Two references to one
      instance id that differ in their dataset or split are such a duplicate. */
  lemma GridKeysDistinct(instances: seq<string>, arms: seq<string>, repeats: int)
    requires PlainArms(arms)
    ensures Distinct(Keys(Grid(instances, arms, Count(repeats))))
            <==> Trivial(instances, arms, repeats) || (Distinct(instances) && Distinct(arms))
  {
    var specs := Grid(instances, arms, Count(repeats));
    forall i | 0 <= i < |specs|
      ensures ':' !in specs[i].arm
    {
      InGrid(instances, arms, Count(repeats), specs[i]);
    }
    KeysDistinct(specs);
    GridDistinct(instances, arms, Count(repeats));
  }
}
