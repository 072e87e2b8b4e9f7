/**
 * TypeWriter: types each of its texts letter by letter into a text
 * control, pausing between texts, once or (with `loop`) until it is
 * unmounted.
 *
 * Each `update()` is recorded as the value it puts on screen, in
 * `shown`; delays are not modelled except for the division `1 / speed`,
 * which raises ZeroDivisionError when `speed` is 0.
 */
module TypeWriter {
  import opened PyStr

  /** What typing `t` shows: the empty text, then every longer prefix up to `t`. */
  function Prefixes(t: string): (p: seq<string>)
    ensures |p| == |t| + 1
  {
    seq(|t| + 1, k requires 0 <= k <= |t| => t[..k])
  }

  /** Each update shows one more letter, from the empty text to the whole text. */
  lemma PrefixesGrow(t: string)
    ensures Prefixes(t)[0] == [] && Prefixes(t)[|t|] == t
    ensures forall k :: 0 <= k < |t| ==> Prefixes(t)[k + 1] == Prefixes(t)[k] + [t[k]]
  {
    assert t[..|t|] == t;
    forall k | 0 <= k < |t| ensures Prefixes(t)[k + 1] == Prefixes(t)[k] + [t[k]] {
      assert t[..k + 1] == t[..k] + [t[k]];
    }
  }

  /** `_type_text(t)` raises at its first sleep when `speed` is 0 and `t` has a letter. */
  predicate Fails(t: string, speed: int)
  {
    speed == 0 && t != []
  }

  /** The values `_type_text(t)` shows, up to where it raises. */
  function TextTrace(t: string, speed: int): (tr: seq<string>)
    ensures !Fails(t, speed) ==> tr == Prefixes(t)
    ensures Fails(t, speed) ==> tr == Prefixes(t)[..2]
  {
    if Fails(t, speed) then [[], t[..1]] else Prefixes(t)
  }

  /** Whether a pass over `texts` raises. */
  predicate PassFails(texts: seq<string>, speed: int)
  {
    exists i :: 0 <= i < |texts| && Fails(texts[i], speed)
  }

  /** The values one pass over `texts` shows, up to where it raises. */
  function PassTrace(texts: seq<string>, speed: int): seq<string>
  {
    if texts == [] then []
    else if Fails(texts[0], speed) then TextTrace(texts[0], speed)
    else TextTrace(texts[0], speed) + PassTrace(texts[1..], speed)
  }

  lemma PassFailsCons(texts: seq<string>, speed: int)
    requires texts != []
    ensures PassFails(texts, speed) <==> Fails(texts[0], speed) || PassFails(texts[1..], speed)
  {
    if PassFails(texts, speed) && !Fails(texts[0], speed) {
      var i :| 0 <= i < |texts| && Fails(texts[i], speed);
      assert texts[1..][i - 1] == texts[i];
    }
    if PassFails(texts[1..], speed) {
      var i :| 0 <= i < |texts[1..]| && Fails(texts[1..][i], speed);
      assert texts[i + 1] == texts[1..][i];
    }
  }

  lemma PassFailsAppend(a: seq<string>, b: seq<string>, speed: int)
    ensures PassFails(a + b, speed) <==> PassFails(a, speed) || PassFails(b, speed)
  {
    if PassFails(a + b, speed) {
      var i :| 0 <= i < |a + b| && Fails((a + b)[i], speed);
      if i < |a| {
        assert (a + b)[i] == a[i];
      } else {
        assert (a + b)[i] == b[i - |a|];
      }
    }
    if PassFails(a, speed) {
      var i :| 0 <= i < |a| && Fails(a[i], speed);
      assert (a + b)[i] == a[i];
    }
    if PassFails(b, speed) {
      var i :| 0 <= i < |b| && Fails(b[i], speed);
      assert (a + b)[|a| + i] == b[i];
    }
  }

  /** A pass over `a + b` is a pass over `a`, then, unless that raised, one over `b`. */
  lemma {:induction false} PassTraceAppend(a: seq<string>, b: seq<string>, speed: int)
    ensures PassTrace(a + b, speed) ==
      if PassFails(a, speed) then PassTrace(a, speed) else PassTrace(a, speed) + PassTrace(b, speed)
  {
    if a == [] {
      assert a + b == b;
      assert !PassFails(a, speed);
    } else {
      assert (a + b)[0] == a[0];
      assert (a + b)[1..] == a[1..] + b;
      PassFailsCons(a, speed);
      if !Fails(a[0], speed) {
        PassTraceAppend(a[1..], b, speed);
      }
    }
  }

  lemma PassTraceSingle(t: string, speed: int)
    ensures PassTrace([t], speed) == TextTrace(t, speed)
    ensures PassFails([t], speed) <==> Fails(t, speed)
  {
    assert [t][1..] == [];
    assert [t][0] == t;
  }

  /** Typing one more text after a pass prefix that did not raise. */
  lemma PassTraceSnoc(texts: seq<string>, i: nat, speed: int)
    requires i < |texts| && !PassFails(texts[..i], speed) && !Fails(texts[i], speed)
    ensures !PassFails(texts[..i + 1], speed)
    ensures PassTrace(texts[..i + 1], speed) == PassTrace(texts[..i], speed) + TextTrace(texts[i], speed)
  {
    assert texts[..i + 1] == texts[..i] + [texts[i]];
    PassTraceAppend(texts[..i], [texts[i]], speed);
    PassFailsAppend(texts[..i], [texts[i]], speed);
    PassTraceSingle(texts[i], speed);
  }

  /** The text that raises ends the pass. */
  lemma PassTraceStop(texts: seq<string>, i: nat, speed: int)
    requires i < |texts| && !PassFails(texts[..i], speed) && Fails(texts[i], speed)
    ensures PassFails(texts, speed)
    ensures PassTrace(texts, speed) == PassTrace(texts[..i], speed) + TextTrace(texts[i], speed)
  {
    assert texts == texts[..i] + ([texts[i]] + texts[i + 1..]);
    PassTraceAppend(texts[..i], [texts[i]] + texts[i + 1..], speed);
    PassFailsAppend(texts[..i], [texts[i]] + texts[i + 1..], speed);
    PassTraceAppend([texts[i]], texts[i + 1..], speed);
    PassFailsAppend([texts[i]], texts[i + 1..], speed);
    PassTraceSingle(texts[i], speed);
  }

  /** `n` passes shown one after the other. */
  function Repeat(tr: seq<string>, n: nat): seq<string>
  {
    if n == 0 then [] else tr + Repeat(tr, n - 1)
  }

  /** The number of updates of a pass that does not raise. */
  function UpdateCount(texts: seq<string>): nat
  {
    if texts == [] then 0 else |texts[0]| + 1 + UpdateCount(texts[1..])
  }

  /** A pass that does not raise shows one update per letter plus one per text. */
  lemma {:induction false} PassTraceLength(texts: seq<string>, speed: int)
    requires !PassFails(texts, speed)
    ensures |PassTrace(texts, speed)| == UpdateCount(texts)
  {
    if texts != [] {
      assert !Fails(texts[0], speed);
      assert !PassFails(texts[1..], speed) by {
        forall i | 0 <= i < |texts[1..]| ensures !Fails(texts[1..][i], speed) {
          assert texts[1..][i] == texts[i + 1];
        }
      }
      PassTraceLength(texts[1..], speed);
    }
  }

  /** A pass that does not raise ends showing the last text whole. */
  lemma {:induction false} PassTraceEnds(texts: seq<string>, speed: int)
    requires texts != [] && !PassFails(texts, speed)
    ensures PassTrace(texts, speed) != [] && PassTrace(texts, speed)[|PassTrace(texts, speed)| - 1] == texts[|texts| - 1]
  {
    assert !Fails(texts[0], speed);
    var head := Prefixes(texts[0]);
    PrefixesGrow(texts[0]);
    if |texts| == 1 {
      assert PassTrace(texts[1..], speed) == [];
      assert PassTrace(texts, speed) == head + [];
    } else {
      assert !PassFails(texts[1..], speed) by {
        forall i | 0 <= i < |texts[1..]| ensures !Fails(texts[1..][i], speed) {
          assert texts[1..][i] == texts[i + 1];
        }
      }
      PassTraceEnds(texts[1..], speed);
      assert texts[1..][|texts[1..]| - 1] == texts[|texts| - 1];
    }
  }

  /** A pass that raises stops right after showing the first letter of the first text with one. */
  lemma {:induction false} PassTraceFails(texts: seq<string>, i: nat)
    requires i < |texts| && texts[i] != []
    requires forall j :: 0 <= j < i ==> texts[j] == []
    ensures PassTrace(texts, 0) == Repeat([[]], i) + [[], texts[i][..1]]
  {
    if i == 0 {
      assert Repeat([[]], 0) == [];
    } else {
      assert TextTrace(texts[0], 0) == [[]];
      assert texts[1..][i - 1] == texts[i];
      PassTraceFails(texts[1..], i - 1);
    }
  }

  class TypeWriter {
    const texts: seq<string>
    const speed: int
    const loop: bool
    /** The typed text so far (`self.value`). */
    var value: string
    /** The text control's value (`self.content.value`). */
    var contentValue: string
    var running: bool
    /** The value on screen at each `update()`, oldest first. */
    var shown: seq<string>

    /** The text control mirrors the typed value. */
    predicate Valid()
      reads this
    {
      contentValue == value
    }

    /** `TypeWriter(texts, speed, loop=...)`: one text becomes a one-element list. */
    constructor(arg: TextsArg, speed: int, loop: bool)
      ensures Valid()
      ensures texts == NormalizeTexts(arg) && this.speed == speed && this.loop == loop
      ensures value == "" && !running && shown == []
    {
      texts := NormalizeTexts(arg);
      this.speed := speed;
      this.loop := loop;
      value := "";
      contentValue := "";
      running := false;
      shown := [];
    }

    method DidMount()
      modifies this
      ensures running
      ensures value == old(value) && contentValue == old(contentValue) && shown == old(shown)
    {
      running := true;
    }

    method WillUnmount()
      modifies this
      ensures !running
      ensures value == old(value) && contentValue == old(contentValue) && shown == old(shown)
    {
      running := false;
    }

    /**
     * `_type_text(t)`: restart from the empty text and add one letter per
     * update; `ok` is false when it raises ZeroDivisionError.
     */
    method TypeText(t: string) returns (ok: bool)
      requires Valid()
      modifies this
      ensures Valid() && running == old(running)
      ensures ok <==> !Fails(t, speed)
      ensures shown == old(shown) + TextTrace(t, speed)
      ensures ok ==> value == t
    {
      value := "";
      contentValue := value;
      shown := shown + [value];
      var i := 0;
      while i < |t|
        invariant 0 <= i <= |t|
        invariant value == t[..i] && contentValue == value && running == old(running)
        invariant shown == old(shown) + Prefixes(t)[..i + 1]
        invariant speed == 0 ==> i == 0
      {
        value := value + [t[i]];
        contentValue := value;
        shown := shown + [value];
        assert value == t[..i + 1];
        assert Prefixes(t)[..i + 2] == Prefixes(t)[..i + 1] + [t[..i + 1]];
        if speed == 0 {
          return false;
        }
        i := i + 1;
      }
      assert Prefixes(t)[..|t| + 1] == Prefixes(t);
      assert t[..|t|] == t;
      return true;
    }

    /** The `for text in self.texts` pass of `_type_loop`. */
    method TypePass() returns (ok: bool)
      requires Valid()
      modifies this
      ensures Valid() && running == old(running)
      ensures ok <==> !PassFails(texts, speed)
      ensures shown == old(shown) + PassTrace(texts, speed)
      ensures ok && texts != [] ==> value == texts[|texts| - 1]
      ensures ok && texts == [] ==> value == old(value)
    {
      var i := 0;
      while i < |texts|
        invariant 0 <= i <= |texts|
        invariant Valid() && running == old(running)
        invariant !PassFails(texts[..i], speed)
        invariant shown == old(shown) + PassTrace(texts[..i], speed)
        invariant i > 0 ==> value == texts[i - 1]
        invariant i == 0 ==> value == old(value)
      {
        var typed := TypeNth(i, old(shown));
        if !typed {
          return false;
        }
        i := i + 1;
      }
      assert texts[..|texts|] == texts;
      return true;
    }

    /** One turn of the pass: type `texts[i]` after a prefix of the pass that did not raise. */
    method TypeNth(i: nat, ghost shown0: seq<string>) returns (typed: bool)
      requires Valid() && i < |texts| && !PassFails(texts[..i], speed)
      requires shown == shown0 + PassTrace(texts[..i], speed)
      modifies this
      ensures Valid() && running == old(running)
      ensures typed ==> !PassFails(texts[..i + 1], speed) && value == texts[i] &&
                        shown == shown0 + PassTrace(texts[..i + 1], speed)
      ensures !typed ==> PassFails(texts, speed) && shown == shown0 + PassTrace(texts, speed)
    {
      typed := TypeText(texts[i]);
      if typed {
        PassTraceSnoc(texts, i, speed);
      } else {
        PassTraceStop(texts, i, speed);
      }
    }

    /**
     * `_type_loop`, with the widget unmounted while pass number `unmountAt`
     * (from 0) is typed: a pass runs to its end before `running` is looked
     * at again, and without `loop` there is one pass only. `ok` is false
     * when a pass raises.
     */
    method TypeLoop(unmountAt: nat) returns (ok: bool, passes: nat)
      requires Valid()
      modifies this
      ensures Valid()
      ensures ok <==> !(old(running) && PassFails(texts, speed))
      ensures !old(running) ==> passes == 0
      ensures old(running) && !PassFails(texts, speed) ==> passes == (if loop then unmountAt + 1 else 1)
      ensures ok ==> shown == old(shown) + Repeat(PassTrace(texts, speed), passes)
      ensures !ok ==> passes == 1 && shown == old(shown) + PassTrace(texts, speed)
    {
      ghost var tr := PassTrace(texts, speed);
      ghost var shown0 := shown;
      passes := 0;
      ok := true;
      var start := running;
      while running
        invariant Valid()
        invariant running ==> start && passes <= unmountAt
        invariant !start ==> passes == 0
        invariant start && !running ==> passes == unmountAt + 1
        invariant !loop ==> passes == 0
        invariant passes > 0 ==> !PassFails(texts, speed)
        invariant shown == shown0 + Repeat(tr, passes)
        decreases if running then unmountAt + 1 - passes else 0
      {
        var pass := LoopTurn(passes, unmountAt, shown0);
        if !pass {
          assert Repeat(tr, 0) == [];
          ok := false;
          passes := 1;
          return;
        }
        passes := passes + 1;
        if !loop {
          return;
        }
      }
    }

    /** One pass of `_type_loop`, the widget being unmounted during pass number `unmountAt`. */
    method LoopTurn(passes: nat, unmountAt: nat, ghost shown0: seq<string>) returns (pass: bool)
      requires Valid() && shown == shown0 + Repeat(PassTrace(texts, speed), passes)
      modifies this
      ensures Valid()
      ensures pass <==> !PassFails(texts, speed)
      ensures running == (old(running) && passes != unmountAt)
      ensures pass ==> shown == shown0 + Repeat(PassTrace(texts, speed), passes + 1)
      ensures !pass ==> shown == shown0 + Repeat(PassTrace(texts, speed), passes) + PassTrace(texts, speed)
    {
      pass := TypePass();
      if passes == unmountAt {
        running := false;
      }
      RepeatSnoc(PassTrace(texts, speed), passes);
    }
  }

  lemma {:induction false} RepeatSnoc(tr: seq<string>, n: nat)
    ensures Repeat(tr, n) + tr == Repeat(tr, n + 1)
  {
    if n > 0 {
      RepeatSnoc(tr, n - 1);
    }
  }
}
