/** Log templates as token sequences: similarity, in-place generalisation, and what it means for
    a template to be the least general one that covers a set of messages. */
module Templates {
  import opened Sequences

  type Token = string

  /** Stands at a template position where the messages differ. */
  const PARAM: Token := "<*>"

  // --- similarity of a template and a message of the same length ---------------------------

  /** How many of the first n positions hold a word of the template that the message repeats. */
  function SameUpTo(tpl: seq<Token>, toks: seq<Token>, n: nat): nat
    requires n <= |tpl| == |toks|
  {
    if n == 0 then 0
    else SameUpTo(tpl, toks, n - 1) + if tpl[n-1] != PARAM && tpl[n-1] == toks[n-1] then 1 else 0
  }

  function ParamsUpTo(tpl: seq<Token>, n: nat): nat
    requires n <= |tpl|
  {
    if n == 0 then 0 else ParamsUpTo(tpl, n - 1) + if tpl[n-1] == PARAM then 1 else 0
  }

  function Sim(tpl: seq<Token>, toks: seq<Token>): real
    requires |tpl| == |toks|
  {
    if |tpl| == 0 then 1.0 else SameUpTo(tpl, toks, |tpl|) as real / |tpl| as real
  }

  function Params(tpl: seq<Token>): nat {
    ParamsUpTo(tpl, |tpl|)
  }

  method SeqDistance(tpl: seq<Token>, toks: seq<Token>) returns (sim: real, params: nat)
    requires |tpl| == |toks|
    ensures sim == Sim(tpl, toks) && params == Params(tpl)
  {
    if |tpl| == 0 {
      return 1.0, 0;
    }
    var same: nat := 0;
    params := 0;
    for i := 0 to |tpl|
      invariant same == SameUpTo(tpl, toks, i) && params == ParamsUpTo(tpl, i)
    {
      if tpl[i] == PARAM {
        params := params + 1;
      } else if tpl[i] == toks[i] {
        same := same + 1;
      }
    }
    sim := same as real / |tpl| as real;
  }

  /** The first n positions at which the message repeats a word of the template, and those of parameters. */
  ghost function Repeated(tpl: seq<Token>, toks: seq<Token>, n: nat): set<int>
    requires n <= |tpl| == |toks|
  {
    set i | 0 <= i < n && tpl[i] != PARAM && tpl[i] == toks[i]
  }

  ghost function Parameters(tpl: seq<Token>, n: nat): set<int>
    requires n <= |tpl|
  {
    set i | 0 <= i < n && tpl[i] == PARAM
  }

  lemma {:induction false} SameUpToIs(tpl: seq<Token>, toks: seq<Token>, n: nat)
    requires n <= |tpl| == |toks|
    ensures SameUpTo(tpl, toks, n) == |Repeated(tpl, toks, n)|
  {
    if n > 0 {
      SameUpToIs(tpl, toks, n - 1);
      OneMore(Repeated(tpl, toks, n - 1), Repeated(tpl, toks, n), n - 1, tpl[n-1] != PARAM && tpl[n-1] == toks[n-1]);
    }
  }

  lemma {:induction false} ParamsUpToIs(tpl: seq<Token>, n: nat)
    requires n <= |tpl|
    ensures ParamsUpTo(tpl, n) == |Parameters(tpl, n)|
  {
    if n > 0 {
      ParamsUpToIs(tpl, n - 1);
      OneMore(Parameters(tpl, n - 1), Parameters(tpl, n), n - 1, tpl[n-1] == PARAM);
    }
  }

  /** The similarity is the share of the positions at which the message repeats a word of the template; a
      parameter is not a word, and without positions it is one. */
  lemma SimIs(tpl: seq<Token>, toks: seq<Token>)
    requires |tpl| == |toks|
    ensures Sim(tpl, toks) * |tpl| as real == |Repeated(tpl, toks, |tpl|)| as real
    ensures tpl == [] ==> Sim(tpl, toks) == 1.0
    ensures Params(tpl) == |Parameters(tpl, |tpl|)|
  {
    SameUpToIs(tpl, toks, |tpl|);
    ParamsUpToIs(tpl, |tpl|);
    assert tpl != [] ==> Sim(tpl, toks) * |tpl| as real == SameUpTo(tpl, toks, |tpl|) as real;
  }

  /** (sim, params) of template a beats that of template b on a message. */
  predicate Beats(a: seq<Token>, b: seq<Token>, toks: seq<Token>)
    requires |a| == |b| == |toks|
  {
    Sim(a, toks) > Sim(b, toks) || (Sim(a, toks) == Sim(b, toks) && Params(a) > Params(b))
  }

  // --- generalisation -----------------------------------------------------------------------

  /** The template after a message is merged into it. */
  function Generalise(tpl: seq<Token>, toks: seq<Token>): (r: seq<Token>)
    requires |tpl| == |toks|
    ensures |r| == |tpl|
  {
    seq(|tpl|, i requires 0 <= i < |tpl| => if tpl[i] == toks[i] then tpl[i] else PARAM)
  }

  /** Template tpl covers message (or template) m position by position. */
  predicate Covers(tpl: seq<Token>, m: seq<Token>) {
    |tpl| == |m| && forall i :: 0 <= i < |tpl| ==> tpl[i] == PARAM || tpl[i] == m[i]
  }

  ghost predicate CoversAll(tpl: seq<Token>, msgs: seq<seq<Token>>) {
    forall k :: 0 <= k < |msgs| ==> Covers(tpl, msgs[k])
  }

  /** tpl is the least general generalisation of msgs: it covers each of them, and whatever else
      covers all of them covers tpl too. */
  ghost predicate IsLgg(tpl: seq<Token>, msgs: seq<seq<Token>>) {
    && |msgs| > 0
    && CoversAll(tpl, msgs)
    && forall q: seq<Token> :: CoversAll(q, msgs) ==> Covers(q, tpl)
  }

  lemma CoversTransitive(a: seq<Token>, b: seq<Token>, c: seq<Token>)
    requires Covers(a, b) && Covers(b, c)
    ensures Covers(a, c)
  {
  }

  /** A single message is its own least general template. */
  lemma LggOfOne(m: seq<Token>)
    ensures IsLgg(m, [m])
  {
    forall q: seq<Token> | CoversAll(q, [m]) ensures Covers(q, m) {
      assert Covers(q, [m][0]);
    }
  }

  /** Merging one more message keeps a template the least general one of all its messages. */
  lemma GeneraliseKeepsLgg(tpl: seq<Token>, msgs: seq<seq<Token>>, m: seq<Token>)
    requires IsLgg(tpl, msgs) && |m| == |tpl|
    ensures IsLgg(Generalise(tpl, m), msgs + [m])
  {
    var r := Generalise(tpl, m);
    var all := msgs + [m];
    forall k | 0 <= k < |all| ensures Covers(r, all[k]) {
      if k < |msgs| {
        assert all[k] == msgs[k];
        CoversTransitive(r, tpl, msgs[k]);
      }
    }
    forall q: seq<Token> | CoversAll(q, all) ensures Covers(q, r) {
      forall k | 0 <= k < |msgs| ensures Covers(q, msgs[k]) {
        assert Covers(q, all[k]);
      }
      assert CoversAll(q, msgs);
      assert Covers(q, all[|msgs|]);
    }
  }

  /** Do all messages have the same token at position i? */
  predicate Common(msgs: seq<seq<Token>>, i: nat)
    requires forall k :: 0 <= k < |msgs| ==> i < |msgs[k]|
  {
    forall k :: 0 <= k < |msgs| ==> msgs[k][i] == msgs[0][i]
  }

  /** Position by position: a token stays where every message has it, and every other position is the
      parameter mark. */
  predicate Positions(tpl: seq<Token>, msgs: seq<seq<Token>>) {
    && |msgs| > 0 && (forall k :: 0 <= k < |msgs| ==> |msgs[k]| == |tpl|)
    && forall i {:trigger tpl[i]} :: 0 <= i < |tpl| ==> tpl[i] == if Common(msgs, i) then msgs[0][i] else PARAM
  }

  /** If a least general template has a word, all messages have it, and the converse. */
  lemma LggKeeps(tpl: seq<Token>, msgs: seq<seq<Token>>, i: nat)
    requires IsLgg(tpl, msgs) && i < |tpl|
    ensures forall k :: 0 <= k < |msgs| ==> |msgs[k]| == |tpl|
    ensures tpl[i] == if Common(msgs, i) then msgs[0][i] else PARAM
  {
    forall k | 0 <= k < |msgs| ensures Covers(tpl, msgs[k]) {}
    if Common(msgs, i) {
      var q := seq(|tpl|, j => if j == i then msgs[0][i] else PARAM);
      forall k | 0 <= k < |msgs| ensures Covers(q, msgs[k]) {}
      assert Covers(q, tpl);
      assert q[i] == msgs[0][i];
    }
  }

  /** That is what it is to be the least general generalisation. */
  lemma LggPositions(tpl: seq<Token>, msgs: seq<seq<Token>>)
    ensures IsLgg(tpl, msgs) <==> Positions(tpl, msgs)
  {
    if IsLgg(tpl, msgs) {
      assert Covers(tpl, msgs[0]);
      forall k | 0 <= k < |msgs| ensures |msgs[k]| == |tpl| {
        assert Covers(tpl, msgs[k]);
      }
      forall i | 0 <= i < |tpl| ensures tpl[i] == if Common(msgs, i) then msgs[0][i] else PARAM {
        LggKeeps(tpl, msgs, i);
      }
    }
    if Positions(tpl, msgs) {
      forall q: seq<Token> | CoversAll(q, msgs) ensures Covers(q, tpl) {
        assert Covers(q, msgs[0]);
        forall i | 0 <= i < |q| ensures q[i] == PARAM || q[i] == tpl[i] {
          if q[i] != PARAM {
            forall k | 0 <= k < |msgs| ensures msgs[k][i] == q[i] {
              assert Covers(q, msgs[k]);
            }
          }
        }
      }
    }
  }

  /** The least general template is unique, so it does not depend on the order of the messages. */
  lemma LggUnique(a: seq<Token>, b: seq<Token>, msgs: seq<seq<Token>>, msgs': seq<seq<Token>>)
    requires IsLgg(a, msgs) && IsLgg(b, msgs')
    requires forall m :: m in msgs <==> m in msgs'
    ensures a == b
  {
    assert CoversAll(a, msgs') by {
      forall k | 0 <= k < |msgs'| ensures Covers(a, msgs'[k]) {
        assert msgs'[k] in msgs;
      }
    }
    assert CoversAll(b, msgs) by {
      forall k | 0 <= k < |msgs| ensures Covers(b, msgs[k]) {
        assert msgs[k] in msgs';
      }
    }
    assert Covers(a, b) && Covers(b, a);
    assert forall i :: 0 <= i < |a| ==> a[i] == b[i];
  }

  // --- merging leaves the similarity of the merged message alone ----------------------------

  lemma {:induction false} GeneraliseCounts(tpl: seq<Token>, toks: seq<Token>, n: nat)
    requires n <= |tpl| == |toks|
    ensures SameUpTo(Generalise(tpl, toks), toks, n) == SameUpTo(tpl, toks, n)
    ensures ParamsUpTo(Generalise(tpl, toks), n) >= ParamsUpTo(tpl, n)
  {
    if n > 0 {
      GeneraliseCounts(tpl, toks, n - 1);
    }
  }

  /** After the merge the template is as similar to the message as before and has no fewer
      parameters, it covers the message, and merging the message again changes nothing. */
  lemma GeneraliseSettles(tpl: seq<Token>, toks: seq<Token>)
    requires |tpl| == |toks|
    ensures Sim(Generalise(tpl, toks), toks) == Sim(tpl, toks)
    ensures Params(Generalise(tpl, toks)) >= Params(tpl)
    ensures Covers(Generalise(tpl, toks), toks) && Covers(Generalise(tpl, toks), tpl)
    ensures Generalise(Generalise(tpl, toks), toks) == Generalise(tpl, toks)
  {
    GeneraliseCounts(tpl, toks, |tpl|);
  }
}
