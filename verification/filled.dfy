/** The list handleSubmit sends for analysis: each option trimmed, then the
    empty ones dropped. */
module FilledOptions {
  import opened Trimming

  /** The `map` step: each option trimmed, in place. */
  function TrimAll(options: seq<string>): (r: seq<string>)
    ensures |r| == |options|
    ensures forall i {:trigger r[i]} :: 0 <= i < |options| ==> r[i] == Trim(options[i])
    decreases |options|
  {
    if options == [] then [] else [Trim(options[0])] + TrimAll(options[1..])
  }

  /** The `filter` step: the non-empty strings, in their order. It is no
      longer than its input and holds no empty string. */
  function DropEmpty(xs: seq<string>): (r: seq<string>)
    ensures |r| <= |xs|
    ensures "" !in r
    decreases |xs|
  {
    if xs == [] then []
    else (if xs[0] == "" then [] else [xs[0]]) + DropEmpty(xs[1..])
  }

  /** filledOptions. */
  function Filled(options: seq<string>): (r: seq<string>)
    ensures |r| <= |options|
    ensures "" !in r
  {
    DropEmpty(TrimAll(options))
  }

  /** The map step works entry by entry. */
  lemma {:induction false} TrimAllAppend(a: seq<string>, b: seq<string>)
    ensures TrimAll(a + b) == TrimAll(a) + TrimAll(b)
    decreases |a|
  {
    if a == [] {
      assert a + b == b;
    } else {
      assert (a + b)[0] == a[0];
      assert (a + b)[1..] == a[1..] + b;
      TrimAllAppend(a[1..], b);
    }
  }

  /** The filter step works entry by entry. */
  lemma {:induction false} DropEmptyAppend(a: seq<string>, b: seq<string>)
    ensures DropEmpty(a + b) == DropEmpty(a) + DropEmpty(b)
    decreases |a|
  {
    if a == [] {
      assert a + b == b;
    } else {
      assert (a + b)[0] == a[0];
      assert (a + b)[1..] == a[1..] + b;
      DropEmptyAppend(a[1..], b);
    }
  }

  /** Filled works entry by entry: filling a concatenation is concatenating
      what each part fills to. */
  lemma FilledAppend(a: seq<string>, b: seq<string>)
    ensures Filled(a + b) == Filled(a) + Filled(b)
  {
    TrimAllAppend(a, b);
    DropEmptyAppend(TrimAll(a), TrimAll(b));
  }

  /** The trim-and-filter step ignores an appended empty input. */
  lemma AddedInputNotSent(options: seq<string>)
    ensures Filled(options + [""]) == Filled(options)
  {
    FilledAppend(options, [""]);
    assert Blank("");
    assert TrimAll([""]) == [""];
    assert DropEmpty([""]) == [] + DropEmpty([]);
  }

  /** Each position moved one place to the right. */
  function Shifted(ix: seq<nat>): (r: seq<nat>)
    ensures |r| == |ix| && forall k {:trigger r[k]} :: 0 <= k < |ix| ==> r[k] == ix[k] + 1
  {
    seq(|ix|, k requires 0 <= k < |ix| => ix[k] + 1)
  }

  /** The positions of the non-empty strings of `xs`: what the filter keeps. */
  function NonEmptyAt(xs: seq<string>): seq<nat>
    decreases |xs|
  {
    if xs == [] then []
    else (if xs[0] == "" then [] else [0]) + Shifted(NonEmptyAt(xs[1..]))
  }

  /** One step of NonEmptyAt: the first position when the first string is
      not empty, then the positions kept in the rest, each one further on. */
  lemma NonEmptyAtStep(xs: seq<string>, k: nat)
    requires xs != [] && k < |NonEmptyAt(xs)|
    ensures var h := if xs[0] == "" then 0 else 1;
            |NonEmptyAt(xs)| == h + |NonEmptyAt(xs[1..])|
            && (k < h ==> NonEmptyAt(xs)[k] == 0)
            && (k >= h ==> NonEmptyAt(xs)[k] == NonEmptyAt(xs[1..])[k - h] + 1)
  {
    var rest := NonEmptyAt(xs[1..]);
    if xs[0] == "" {
      assert NonEmptyAt(xs) == Shifted(rest);
    } else {
      assert NonEmptyAt(xs) == [0] + Shifted(rest);
      if k > 0 {
        assert ([0] + Shifted(rest))[k] == Shifted(rest)[k - 1];
      }
    }
  }

  /** Every kept position holds a non-empty string. */
  lemma {:induction false} NonEmptyAtValid(xs: seq<string>, k: nat)
    requires k < |NonEmptyAt(xs)|
    ensures NonEmptyAt(xs)[k] < |xs| && xs[NonEmptyAt(xs)[k]] != ""
    decreases |xs|
  {
    NonEmptyAtStep(xs, k);
    var h := if xs[0] == "" then 0 else 1;
    if k >= h {
      var tail := xs[1..];
      NonEmptyAtValid(tail, k - h);
      var j := NonEmptyAt(tail)[k - h];
      assert xs[j + 1] == tail[j];
    }
  }

  /** The kept positions are strictly increasing. */
  lemma {:induction false} NonEmptyAtSorted(xs: seq<string>)
    ensures forall k, l :: 0 <= k < l < |NonEmptyAt(xs)| ==> NonEmptyAt(xs)[k] < NonEmptyAt(xs)[l]
    decreases |xs|
  {
    if xs != [] {
      var rest := NonEmptyAt(xs[1..]);
      NonEmptyAtSorted(xs[1..]);
      var h := if xs[0] == "" then 0 else 1;
      var ix := NonEmptyAt(xs);
      forall k, l | 0 <= k < l < |ix| ensures ix[k] < ix[l] {
        NonEmptyAtStep(xs, k);
        NonEmptyAtStep(xs, l);
        if k >= h {
          assert rest[k - h] < rest[l - h];
        }
      }
    }
  }

  /** Every position holding a non-empty string is kept. */
  lemma {:induction false} NonEmptyAtComplete(xs: seq<string>, i: nat)
    requires i < |xs| && xs[i] != ""
    ensures i in NonEmptyAt(xs)
    decreases |xs|
  {
    var h := if xs[0] == "" then 0 else 1;
    if i == 0 {
      NonEmptyAtStep(xs, 0);
    } else {
      var tail := xs[1..];
      assert tail[i - 1] == xs[i];
      NonEmptyAtComplete(tail, i - 1);
      var k :| 0 <= k < |NonEmptyAt(tail)| && NonEmptyAt(tail)[k] == i - 1;
      assert |NonEmptyAt(xs)| == h + |NonEmptyAt(tail)|;
      NonEmptyAtStep(xs, k + h);
      assert NonEmptyAt(xs)[k + h] == i;
    }
  }

  /** The filter keeps one entry per kept position. */
  lemma {:induction false} DropEmptyLength(xs: seq<string>)
    ensures |DropEmpty(xs)| == |NonEmptyAt(xs)|
    decreases |xs|
  {
    if xs != [] {
      DropEmptyLength(xs[1..]);
    }
  }

  /** One step of DropEmpty: the first string when it is not empty, then
      what the rest keeps. */
  lemma DropEmptyStep(xs: seq<string>, k: nat)
    requires xs != [] && k < |DropEmpty(xs)|
    ensures var h := if xs[0] == "" then 0 else 1;
            (k < h ==> DropEmpty(xs)[k] == xs[0])
            && (k >= h ==> k - h < |DropEmpty(xs[1..])| && DropEmpty(xs)[k] == DropEmpty(xs[1..])[k - h])
  {
    var rest := DropEmpty(xs[1..]);
    if xs[0] == "" {
      assert DropEmpty(xs) == rest;
    } else {
      assert DropEmpty(xs) == [xs[0]] + rest;
      if k > 0 {
        assert ([xs[0]] + rest)[k] == rest[k - 1];
      }
    }
  }

  /** Entry k of the filtered list is the string at the k-th kept position. */
  lemma {:induction false} DropEmptyAt(xs: seq<string>, k: nat)
    requires k < |NonEmptyAt(xs)|
    ensures k < |DropEmpty(xs)| && NonEmptyAt(xs)[k] < |xs|
    ensures DropEmpty(xs)[k] == xs[NonEmptyAt(xs)[k]]
    decreases |xs|
  {
    DropEmptyLength(xs);
    NonEmptyAtValid(xs, k);
    NonEmptyAtStep(xs, k);
    DropEmptyStep(xs, k);
    var h := if xs[0] == "" then 0 else 1;
    if k >= h {
      var tail := xs[1..];
      DropEmptyAt(tail, k - h);
      var j := NonEmptyAt(tail)[k - h];
      assert xs[j + 1] == tail[j];
    }
  }

  /** The positions of the options that are not blank. */
  function KeptIndices(options: seq<string>): seq<nat> {
    NonEmptyAt(TrimAll(options))
  }

  /** Filled is exactly the selection of the non-blank options, trimmed, in
      their original order: its k-th entry is the trimmed text of the k-th
      non-blank option, and every non-blank option has its entry. */
  lemma FilledSelectsNonBlank(options: seq<string>)
    ensures var ix := KeptIndices(options);
            |ix| == |Filled(options)|
            && (forall k :: 0 <= k < |ix| ==>
                  ix[k] < |options| && Filled(options)[k] == Trim(options[ix[k]]))
            && (forall k, l :: 0 <= k < l < |ix| ==> ix[k] < ix[l])
            && (forall i :: 0 <= i < |options| ==> (i in ix <==> !Blank(options[i])))
  {
    var ys := TrimAll(options);
    var ix := NonEmptyAt(ys);
    DropEmptyLength(ys);
    NonEmptyAtSorted(ys);
    forall k | 0 <= k < |ix|
      ensures ix[k] < |options| && Filled(options)[k] == Trim(options[ix[k]])
    {
      DropEmptyAt(ys, k);
      assert ys[ix[k]] == Trim(options[ix[k]]);
    }
    forall i | 0 <= i < |options|
      ensures i in ix <==> !Blank(options[i])
    {
      assert ys[i] == Trim(options[i]);
      if ys[i] != "" {
        NonEmptyAtComplete(ys, i);
      }
      if i in ix {
        var k :| 0 <= k < |ix| && ix[k] == i;
        NonEmptyAtValid(ys, k);
      }
    }
  }

  /** Every entry of filledOptions is already trimmed. */
  lemma FilledEntriesTrimmed(options: seq<string>)
    ensures forall x :: x in Filled(options) ==> Trim(x) == x
  {
    FilledSelectsNonBlank(options);
    var ix := KeptIndices(options);
    forall x | x in Filled(options) ensures Trim(x) == x {
      var k :| 0 <= k < |Filled(options)| && Filled(options)[k] == x;
      TrimIdempotent(options[ix[k]]);
    }
  }

  /** The validation gate in terms of what the user typed: at least two
      entries survive the filter exactly when two different inputs hold
      something other than white space. */
  lemma EnoughOptionsIff(options: seq<string>)
    ensures |Filled(options)| >= 2 <==>
            exists i, j :: 0 <= i < j < |options| && !Blank(options[i]) && !Blank(options[j])
  {
    FilledSelectsNonBlank(options);
    var ix := KeptIndices(options);
    if |ix| >= 2 {
      assert 0 <= ix[0] < ix[1] < |options|;
      assert ix[0] in ix && ix[1] in ix;
    }
    if exists i, j :: 0 <= i < j < |options| && !Blank(options[i]) && !Blank(options[j]) {
      var i, j :| 0 <= i < j < |options| && !Blank(options[i]) && !Blank(options[j]);
      assert i in ix && j in ix;
      var ki :| 0 <= ki < |ix| && ix[ki] == i;
      var kj :| 0 <= kj < |ix| && ix[kj] == j;
      assert ki != kj;
    }
  }

  /** The page's initial inputs fill to nothing. */
  lemma InitialFillsToNothing()
    ensures Filled(["", ""]) == []
  {
    var options := ["", ""];
    assert Blank(options[0]) && Blank(options[1]);
    var ys := TrimAll(options);
    assert ys[0] == "" && ys[1] == "";
    assert ys[1..][0] == "" && ys[1..][1..] == [];
    assert DropEmpty(ys[1..]) == [];
  }

  /** A blank middle entry is dropped and the others keep their order. */
  lemma BlankEntryDropped()
    ensures Filled(["Pizza", "  ", "Tacos"]) == ["Pizza", "Tacos"]
  {
    var options := ["Pizza", "  ", "Tacos"];
    assert !IsWhite(options[0][0]) && !IsWhite(options[0][4]);
    assert Blank(options[1]);
    assert !IsWhite(options[2][0]) && !IsWhite(options[2][4]);
    assert TrimStart(options[0]) == options[0];
    assert TrimEnd(options[0]) == options[0];
    assert TrimStart(options[2]) == options[2];
    assert TrimEnd(options[2]) == options[2];
    var ys := TrimAll(options);
    assert ys[0] == "Pizza" && ys[1] == "" && ys[2] == "Tacos";
    var t1 := ys[1..];
    assert t1[0] == "" && t1[1] == "Tacos";
    var t2 := t1[1..];
    assert t2[0] == "Tacos" && t2[1..] == [];
    assert DropEmpty(t2) == ["Tacos"];
    assert DropEmpty(t1) == ["Tacos"];
  }
}
