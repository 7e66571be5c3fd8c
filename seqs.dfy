/** Two sequence folds the walker uses over and over: running a step that may
    fail over every element, and building a dictionary from key/value pairs
    where a later pair overwrites an earlier one (Python's `d[k] = v` in a loop). */
module Seqs {
  import opened Wrappers

  /** Every step's value when all of them succeed, else the error of the first
      step that fails. */
  function Collect<X, Y, E>(xs: seq<X>, f: X -> Result<Y, E>): Result<seq<Y>, E>
    decreases |xs|
  {
    if xs == [] then Success([])
    else
      match Collect(xs[..|xs| - 1], f)
      case Failure(e) => Failure(e)
      case Success(ys) =>
        match f(xs[|xs| - 1])
        case Failure(e) => Failure(e)
        case Success(y) => Success(ys + [y])
  }

  /** A success holds every step's value in order; a failure is the error of
      a step that fails after steps that all succeed. */
  lemma {:induction false} CollectMeaning<X, Y, E>(xs: seq<X>, f: X -> Result<Y, E>)
    ensures var r := Collect(xs, f);
      (r.Success? ==> |r.value| == |xs| && forall i :: 0 <= i < |xs| ==> f(xs[i]) == Success(r.value[i])) &&
      (r.Failure? ==> exists i :: 0 <= i < |xs| && f(xs[i]) == Failure(r.error) && forall j :: 0 <= j < i ==> f(xs[j]).Success?)
    decreases |xs|
  {
    if xs != [] {
      var init := xs[..|xs| - 1];
      CollectMeaning(init, f);
      assert forall i :: 0 <= i < |init| ==> init[i] == xs[i];
      match Collect(init, f)
      case Failure(e) =>
      case Success(ys) =>
        match f(xs[|xs| - 1])
        case Failure(e) =>
          assert forall j :: 0 <= j < |xs| - 1 ==> f(xs[j]) == Success(ys[j]);
        case Success(y) =>
          assert Collect(xs, f) == Success(ys + [y]);
    }
  }

  /** The walk succeeds exactly when every step does. */
  lemma CollectSucceeds<X, Y, E>(xs: seq<X>, f: X -> Result<Y, E>)
    ensures Collect(xs, f).Success? <==> forall i :: 0 <= i < |xs| ==> f(xs[i]).Success?
  {
    CollectMeaning(xs, f);
  }

  /** One more element: its step runs only if every earlier step succeeded. */
  lemma CollectStep<X, Y, E>(xs: seq<X>, i: nat, f: X -> Result<Y, E>)
    requires i < |xs|
    ensures Collect(xs[..i + 1], f) ==
      match Collect(xs[..i], f)
      case Failure(e) => Failure(e)
      case Success(ys) => (match f(xs[i]) case Failure(e) => Failure(e) case Success(y) => Success(ys + [y]))
  {
    assert xs[..i + 1][..i] == xs[..i];
  }

  /** A loop step that succeeds extends the values collected so far. */
  lemma CollectSnoc<X, Y, E>(xs: seq<X>, i: nat, f: X -> Result<Y, E>, ys: seq<Y>, y: Y)
    requires i < |xs| && Collect(xs[..i], f) == Success(ys) && f(xs[i]) == Success(y)
    ensures Collect(xs[..i + 1], f) == Success(ys + [y])
  {
    CollectStep(xs, i, f);
  }

  /** A loop step that fails is the failure of the whole sequence. */
  lemma CollectFails<X, Y, E>(xs: seq<X>, i: nat, f: X -> Result<Y, E>, ys: seq<Y>)
    requires i < |xs| && Collect(xs[..i], f) == Success(ys) && f(xs[i]).Failure?
    ensures Collect(xs, f) == Failure(f(xs[i]).error)
  {
    CollectStep(xs, i, f);
    CollectSticks(xs, i + 1, f);
  }

  /** Once a prefix fails, the whole sequence fails with the same error. */
  lemma {:induction false} CollectSticks<X, Y, E>(xs: seq<X>, i: nat, f: X -> Result<Y, E>)
    requires i <= |xs| && Collect(xs[..i], f).Failure?
    ensures Collect(xs, f) == Collect(xs[..i], f)
    decreases |xs|
  {
    if i < |xs| {
      var init := xs[..|xs| - 1];
      assert init[..i] == xs[..i];
      CollectSticks(init, i, f);
    } else {
      assert xs[..i] == xs;
    }
  }

  /** The dictionary built by assigning each pair in turn. */
  function ToMap<K, V>(kvs: seq<(K, V)>): map<K, V>
    decreases |kvs|
  {
    if kvs == [] then map[] else ToMap(kvs[..|kvs| - 1])[kvs[|kvs| - 1].0 := kvs[|kvs| - 1].1]
  }

  /** The keys are those of the pairs. */
  lemma {:induction false} ToMapKeys<K, V>(kvs: seq<(K, V)>)
    ensures ToMap(kvs).Keys == set i | 0 <= i < |kvs| :: kvs[i].0
    decreases |kvs|
  {
    if kvs != [] {
      var init := kvs[..|kvs| - 1];
      ToMapKeys(init);
      assert forall i :: 0 <= i < |init| ==> init[i] == kvs[i];
    }
  }

  /** Assigning the pairs of `a` and then those of `b`: `b`'s keys win. */
  lemma {:induction false} ToMapAppend<K, V>(a: seq<(K, V)>, b: seq<(K, V)>)
    ensures ToMap(a + b) == ToMap(a) + ToMap(b)
    decreases |b|
  {
    if b == [] {
      assert a + b == a;
    } else {
      var b' := b[..|b| - 1];
      assert (a + b)[..|a + b| - 1] == a + b';
      ToMapAppend(a, b');
    }
  }

  /** A key maps to the value of its last pair. */
  lemma {:induction false} ToMapLast<K, V>(kvs: seq<(K, V)>, i: nat)
    requires i < |kvs| && forall j :: i < j < |kvs| ==> kvs[j].0 != kvs[i].0
    ensures kvs[i].0 in ToMap(kvs) && ToMap(kvs)[kvs[i].0] == kvs[i].1
    decreases |kvs|
  {
    if i < |kvs| - 1 {
      var init := kvs[..|kvs| - 1];
      ToMapLast(init, i);
    }
  }

  /** When every pair carries the same value, every key maps to it. */
  lemma {:induction false} ToMapConst<K, V>(kvs: seq<(K, V)>, v: V)
    requires forall i :: 0 <= i < |kvs| ==> kvs[i].1 == v
    ensures forall k :: k in ToMap(kvs) ==> ToMap(kvs)[k] == v
    decreases |kvs|
  {
    if kvs != [] {
      ToMapConst(kvs[..|kvs| - 1], v);
    }
  }
}
