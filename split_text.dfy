/**
 * SplitText: shows each of its texts as a row of one-letter controls that
 * start shifted and transparent and are revealed one at a time, once or
 * (with `loop`) until the widget is unmounted.
 *
 * Each `update()` is recorded as the row it puts on screen, in `frames`;
 * delays (`speed`, `pause`) are not modelled.
 */
module SplitText {
  import opened PyStr

  /** A control offset, in multiples of the control's own size. */
  datatype Offset = Offset(x: int, y: int)

  /** `_get_offset`: where letters start, by entry direction. */
  function OffsetOf(direction: string): (o: Offset)
    ensures direction == "bottom" ==> o == Offset(0, 1)
    ensures direction == "top" ==> o == Offset(0, -1)
    ensures direction == "left" ==> o == Offset(-1, 0)
    ensures direction == "right" ==> o == Offset(1, 0)
    ensures direction !in {"bottom", "top", "left", "right"} ==> o == Offset(0, 1)
  {
    if direction == "bottom" then Offset(0, 1)
    else if direction == "top" then Offset(0, -1)
    else if direction == "left" then Offset(-1, 0)
    else if direction == "right" then Offset(1, 0)
    else Offset(0, 1)
  }

  /** Every direction starts the letters exactly one step away from their place. */
  lemma OffsetUnitStep(direction: string)
    ensures var o := OffsetOf(direction);
      (o.x == 0 || o.y == 0) && o.x * o.x + o.y * o.y == 1
  {
  }

  /** A one-character text control. */
  datatype Letter = Letter(ch: char, offset: Offset, opacity: nat)

  /** The row when the first `k` letters of `t` have been revealed. */
  function Frame(t: string, o: Offset, k: nat): (row: seq<Letter>)
    requires k <= |t|
    ensures |row| == |t|
  {
    seq(|t|, j requires 0 <= j < |t| => if j < k then Letter(t[j], Offset(0, 0), 1) else Letter(t[j], o, 0))
  }

  /** The text a row of letters spells. */
  function Spelled(row: seq<Letter>): (s: string)
    ensures |s| == |row|
  {
    if row == [] then [] else [row[0].ch] + Spelled(row[1..])
  }

  /** At every stage the row spells the text, one letter control per character. */
  lemma {:induction false} FrameSpells(t: string, o: Offset, k: nat)
    requires k <= |t|
    ensures Spelled(Frame(t, o, k)) == t
  {
    FrameSpellsFrom(t, o, k, 0);
    assert Frame(t, o, k)[0..] == Frame(t, o, k);
    assert t[0..] == t;
  }

  lemma {:induction false} FrameSpellsFrom(t: string, o: Offset, k: nat, i: nat)
    requires k <= |t| && i <= |t|
    ensures Spelled(Frame(t, o, k)[i..]) == t[i..]
    decreases |t| - i
  {
    var f := Frame(t, o, k);
    if i < |t| {
      FrameSpellsFrom(t, o, k, i + 1);
      assert f[i..][1..] == f[i + 1..];
      assert t[i..] == [t[i]] + t[i + 1..];
    }
  }

  /** Letters start at the direction's offset, invisible, and end in place, fully opaque. */
  lemma FrameEnds(t: string, o: Offset)
    ensures forall j :: 0 <= j < |t| ==> Frame(t, o, 0)[j].offset == o && Frame(t, o, 0)[j].opacity == 0
    ensures forall j :: 0 <= j < |t| ==> Frame(t, o, |t|)[j].offset == Offset(0, 0) && Frame(t, o, |t|)[j].opacity == 1
  {
  }

  /** Revealing the next letter changes that letter only. */
  lemma FrameStep(t: string, o: Offset, k: nat)
    requires k < |t|
    ensures Frame(t, o, k + 1) == Frame(t, o, k)[k := Letter(t[k], Offset(0, 0), 1)]
  {
  }

  /** The rows `_animate_text(t)` shows: the empty row, the hidden letters, then one reveal per update. */
  function TextFrames(t: string, o: Offset): (fs: seq<seq<Letter>>)
    ensures |fs| == |t| + 2
  {
    [[]] + seq(|t| + 1, k requires 0 <= k <= |t| => Frame(t, o, k))
  }

  /** The rows one pass over `texts` shows. */
  function PassFrames(texts: seq<string>, o: Offset): seq<seq<Letter>>
  {
    if texts == [] then [] else TextFrames(texts[0], o) + PassFrames(texts[1..], o)
  }

  lemma {:induction false} PassFramesSnoc(texts: seq<string>, i: nat, o: Offset)
    requires i < |texts|
    ensures PassFrames(texts[..i + 1], o) == PassFrames(texts[..i], o) + TextFrames(texts[i], o)
  {
    if i == 0 {
      assert texts[..1] == [texts[0]];
      assert texts[..1][1..] == [];
    } else {
      assert texts[..i + 1][1..] == texts[1..][..i];
      assert texts[..i][1..] == texts[1..][..i - 1];
      PassFramesSnoc(texts[1..], i - 1, o);
      assert texts[1..][i - 1] == texts[i];
    }
  }

  /** `n` passes shown one after the other. */
  function Repeat(fs: seq<seq<Letter>>, n: nat): (r: seq<seq<Letter>>)
    ensures |r| == n * |fs|
  {
    if n == 0 then [] else fs + Repeat(fs, n - 1)
  }

  lemma {:induction false} RepeatSnoc(fs: seq<seq<Letter>>, n: nat)
    ensures Repeat(fs, n) + fs == Repeat(fs, n + 1)
  {
    if n > 0 {
      RepeatSnoc(fs, n - 1);
    }
  }

  class SplitText {
    const texts: seq<string>
    const loop: bool
    const direction: string
    var running: bool
    /** The letter controls of the row. */
    var row: seq<Letter>
    /** The row on screen at each `update()`, oldest first. */
    var frames: seq<seq<Letter>>

    /** `SplitText(texts, loop=..., direction=...)`: one text becomes a one-element list. */
    constructor(arg: TextsArg, loop: bool, direction: string)
      ensures texts == NormalizeTexts(arg) && this.loop == loop && this.direction == direction
      ensures !running && row == [] && frames == []
    {
      texts := NormalizeTexts(arg);
      this.loop := loop;
      this.direction := direction;
      running := false;
      row := [];
      frames := [];
    }

    method DidMount()
      modifies this
      ensures running && row == old(row) && frames == old(frames)
    {
      running := true;
    }

    method WillUnmount()
      modifies this
      ensures !running && row == old(row) && frames == old(frames)
    {
      running := false;
    }

    /**
     * `_animate_text(t)`: clear the row, add one hidden letter per
     * character, then reveal them one by one.
     */
    method AnimateText(t: string)
      modifies this
      ensures running == old(running)
      ensures row == Frame(t, OffsetOf(direction), |t|)
      ensures frames == old(frames) + TextFrames(t, OffsetOf(direction))
    {
      row := [];
      frames := frames + [row];
      var o := OffsetOf(direction);
      row := row + Frame(t, o, 0);
      frames := frames + [row];
      var i := 0;
      while i < |t|
        invariant 0 <= i <= |t|
        invariant running == old(running)
        invariant row == Frame(t, o, i)
        invariant frames == old(frames) + TextFrames(t, o)[..i + 2]
      {
        FrameStep(t, o, i);
        row := row[i := Letter(t[i], Offset(0, 0), 1)];
        frames := frames + [row];
        assert TextFrames(t, o)[..i + 3] == TextFrames(t, o)[..i + 2] + [Frame(t, o, i + 1)];
        i := i + 1;
      }
      assert TextFrames(t, o)[..|t| + 2] == TextFrames(t, o);
    }

    /** The `for text in self.texts` pass of `_animate_loop`. */
    method AnimatePass()
      modifies this
      ensures running == old(running)
      ensures frames == old(frames) + PassFrames(texts, OffsetOf(direction))
      ensures texts != [] ==> row == Frame(texts[|texts| - 1], OffsetOf(direction), |texts[|texts| - 1]|)
      ensures texts == [] ==> row == old(row)
    {
      var i := 0;
      while i < |texts|
        invariant 0 <= i <= |texts|
        invariant running == old(running)
        invariant frames == old(frames) + PassFrames(texts[..i], OffsetOf(direction))
        invariant i > 0 ==> row == Frame(texts[i - 1], OffsetOf(direction), |texts[i - 1]|)
        invariant i == 0 ==> row == old(row)
      {
        AnimateText(texts[i]);
        PassFramesSnoc(texts, i, OffsetOf(direction));
        i := i + 1;
      }
      assert texts[..|texts|] == texts;
    }

    /**
     * `_animate_loop`, with the widget unmounted while pass number
     * `unmountAt` (from 0) is shown: a pass runs to its end before
     * `running` is looked at again, and without `loop` there is one pass.
     */
    method AnimateLoop(unmountAt: nat) returns (passes: nat)
      modifies this
      ensures !old(running) ==> passes == 0
      ensures old(running) ==> passes == (if loop then unmountAt + 1 else 1)
      ensures frames == old(frames) + Repeat(PassFrames(texts, OffsetOf(direction)), passes)
    {
      passes := 0;
      var start := running;
      while running
        invariant running ==> start && passes <= unmountAt
        invariant !start ==> passes == 0
        invariant start && !running ==> passes == unmountAt + 1
        invariant !loop ==> passes == 0
        invariant frames == old(frames) + Repeat(PassFrames(texts, OffsetOf(direction)), passes)
        decreases if running then unmountAt + 1 - passes else 0
      {
        AnimatePass();
        if passes == unmountAt {
          running := false;
        }
        RepeatSnoc(PassFrames(texts, OffsetOf(direction)), passes);
        passes := passes + 1;
        if !loop {
          return;
        }
      }
    }
  }
}
