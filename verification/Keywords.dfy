/** The level that the words of a template suggest, and why generalising the template never raises it. */
module Keywords {
  import opened Numbers
  import opened Templates

  datatype Phrase = Phrase(words: seq<string>, level: nat)

  /** The word lists: lower case of a word, the level of a word, and the phrases. */
  datatype Tables = Tables(lower: string -> string, level: string -> nat, phrases: seq<Phrase>)
  {
    function Lower(w: string): string {
      lower(w)
    }

    function Level(w: string): nat {
      level(w)
    }

    /** Phrases consist of words; the empty word is what breaks them. */
    predicate Sane() {
      forall p :: p in phrases ==> p.words != [] && "" !in p.words
    }
  }

  predicate IsWord(c: char) {
    'a' <= c <= 'z' || 'A' <= c <= 'Z' || '0' <= c <= '9' || c == '_'
  }

  /** The position after the upper-case letters and stars from j on. */
  function MaskChars(s: string, j: nat): (k: nat)
    ensures k >= j
    decreases |s| - j
  {
    if j < |s| && ('A' <= s[j] <= 'Z' || s[j] == '*') then MaskChars(s, j + 1) else j
  }

  /** The position after a mask or parameter at i, or 0 if there is none. */
  function MaskEnd(s: string, i: nat): nat {
    var j := MaskChars(s, i + 1);
    if j > i + 1 && j < |s| && s[j] == '>' then j + 1 else 0
  }

  function WordEnd(s: string, j: nat): (k: nat)
    requires j <= |s|
    ensures j <= k <= |s|
    decreases |s| - j
  {
    if j < |s| && IsWord(s[j]) then WordEnd(s, j + 1) else j
  }

  /** What a token says: the highest level of its words, and the words in lower case, an empty one where
      a phrase breaks. */
  datatype Reading = Reading(level: nat, words: seq<string>)

  function ReadFrom(t: Tables, tok: string, i: nat): Reading
    decreases |tok| - i
  {
    if i >= |tok| then Reading(0, [])
    else if tok[i] == '<' && MaskEnd(tok, i) > i then
      var r := ReadFrom(t, tok, MaskEnd(tok, i));
      Reading(r.level, [""] + r.words)
    else if !IsWord(tok[i]) then ReadFrom(t, tok, i + 1)
    else
      var j := WordEnd(tok, i + 1);
      var w := tok[i..j];
      var key := j < |tok| && tok[j] == '=';
      var negated := i >= 4 && t.Lower(tok[i-4..i]) == "non-";
      var r := ReadFrom(t, tok, j);
      Reading(if key || negated then r.level else Max(t.Level(w), r.level), [t.Lower(w)] + r.words)
  }

  function ReadToken(t: Tables, tok: Token): Reading {
    if '/' in tok then Reading(0, [""]) else ReadFrom(t, tok, 0)
  }

  function Words(t: Tables, toks: seq<Token>): seq<string> {
    if toks == [] then [] else ReadToken(t, toks[0]).words + Words(t, toks[1..])
  }

  function WordLevel(t: Tables, toks: seq<Token>): nat {
    if toks == [] then 0 else Max(ReadToken(t, toks[0]).level, WordLevel(t, toks[1..]))
  }

  /** Does run occur in words without a gap? */
  predicate HasRun(words: seq<string>, run: seq<string>) {
    run <= words || (words != [] && HasRun(words[1..], run))
  }

  function PhraseLevel(phrases: seq<Phrase>, words: seq<string>): nat {
    if phrases == [] then 0
    else Max(if HasRun(words, phrases[0].words) then phrases[0].level else 0, PhraseLevel(phrases[1..], words))
  }

  function InferLevel(t: Tables, toks: seq<Token>): nat {
    Max(WordLevel(t, toks), PhraseLevel(t.phrases, Words(t, toks)))
  }

  /** A parameter says nothing and breaks phrases. */
  lemma ParamReads(t: Tables)
    ensures ReadToken(t, PARAM) == Reading(0, [""])
  {
    assert MaskChars(PARAM, 2) == 2;
    assert MaskEnd(PARAM, 0) == 3;
    assert ReadFrom(t, PARAM, 3) == Reading(0, []);
  }

  lemma {:induction false} WordLevelFalls(t: Tables, a: seq<Token>, b: seq<Token>)
    requires Covers(b, a)
    ensures WordLevel(t, b) <= WordLevel(t, a)
  {
    if a != [] {
      ParamReads(t);
      WordLevelFalls(t, a[1..], b[1..]);
    }
  }

  /** Words that a blanked template starts with were there before. */
  lemma {:induction false} PrefixKept(t: Tables, a: seq<Token>, b: seq<Token>, run: seq<string>)
    requires Covers(b, a) && "" !in run && run <= Words(t, b)
    ensures run <= Words(t, a)
  {
    if run != [] {
      var w := ReadToken(t, b[0]).words;
      ParamReads(t);
      assert b[0] == a[0] by {
        assert run[0] == Words(t, b)[0];
      }
      if |run| > |w| {
        assert run == w + run[|w|..];
        PrefixKept(t, a[1..], b[1..], run[|w|..]);
      }
    }
  }

  /** A run that starts among the words w, before the rest. */
  lemma {:induction false} RunInParts(w: seq<string>, rest: seq<string>, run: seq<string>)
    requires HasRun(w + rest, run)
    ensures HasRun(rest, run) || exists k :: 0 <= k < |w| && run <= w[k..] + rest
    decreases |w|
  {
    if w == [] {
      assert w + rest == rest;
    } else if run <= w + rest {
      assert w[0..] + rest == w + rest;
    } else {
      assert (w + rest)[1..] == w[1..] + rest;
      RunInParts(w[1..], rest, run);
      if k :| 0 <= k < |w[1..]| && run <= w[1..][k..] + rest {
        assert w[1..][k..] == w[k+1..];
      }
    }
  }

  lemma {:induction false} RunAfter(w: seq<string>, rest: seq<string>, run: seq<string>)
    requires HasRun(rest, run)
    ensures HasRun(w + rest, run)
    decreases |w|
  {
    if w == [] {
      assert w + rest == rest;
    } else {
      assert (w + rest)[1..] == w[1..] + rest;
      RunAfter(w[1..], rest, run);
    }
  }

  lemma {:induction false} RunAt(words: seq<string>, k: nat, run: seq<string>)
    requires k <= |words| && run <= words[k..]
    ensures HasRun(words, run)
    decreases k
  {
    if k > 0 {
      assert words[1..][k-1..] == words[k..];
      RunAt(words[1..], k - 1, run);
    }
  }

  /** A phrase of a blanked template was there before. */
  lemma {:induction false} RunKept(t: Tables, a: seq<Token>, b: seq<Token>, run: seq<string>)
    requires Covers(b, a) && run != [] && "" !in run && HasRun(Words(t, b), run)
    ensures HasRun(Words(t, a), run)
  {
    if b != [] {
      var w, rest := ReadToken(t, b[0]).words, Words(t, b[1..]);
      RunInParts(w, rest, run);
      if HasRun(rest, run) {
        RunKept(t, a[1..], b[1..], run);
        RunAfter(ReadToken(t, a[0]).words, Words(t, a[1..]), run);
      } else {
        var k :| 0 <= k < |w| && run <= w[k..] + rest;
        RunFrom(t, a, b, run, k);
      }
    }
  }

  lemma RunFrom(t: Tables, a: seq<Token>, b: seq<Token>, run: seq<string>, k: nat)
    requires Covers(b, a) && b != [] && run != [] && "" !in run
    requires var w := ReadToken(t, b[0]).words; k < |w| && run <= w[k..] + Words(t, b[1..])
    ensures HasRun(Words(t, a), run)
  {
    var w := ReadToken(t, b[0]).words;
    ParamReads(t);
    assert run[0] == w[k];
    assert b[0] == a[0];
    var tail := w[k..];
    if |run| > |tail| {
      assert run == tail + run[|tail|..];
      PrefixKept(t, a[1..], b[1..], run[|tail|..]);
    }
    assert run <= tail + Words(t, a[1..]);
    assert Words(t, a)[k..] == tail + Words(t, a[1..]);
    RunAt(Words(t, a), k, run);
  }

  lemma {:induction false} PhraseLevelFalls(phrases: seq<Phrase>, v: seq<string>, w: seq<string>)
    requires forall p :: p in phrases && HasRun(w, p.words) ==> HasRun(v, p.words)
    ensures PhraseLevel(phrases, w) <= PhraseLevel(phrases, v)
  {
    if phrases != [] {
      assert phrases[0] in phrases;
      PhraseLevelFalls(phrases[1..], v, w);
    }
  }

  /** Replacing words of a template by parameters never raises its keyword level. */
  lemma KeywordLevelFalls(t: Tables, a: seq<Token>, b: seq<Token>)
    requires t.Sane() && Covers(b, a)
    ensures InferLevel(t, b) <= InferLevel(t, a)
  {
    WordLevelFalls(t, a, b);
    forall p | p in t.phrases && HasRun(Words(t, b), p.words) ensures HasRun(Words(t, a), p.words) {
      RunKept(t, a, b, p.words);
    }
    PhraseLevelFalls(t.phrases, Words(t, a), Words(t, b));
  }

  /** So a template's keyword level only falls as it takes in messages. */
  lemma GeneraliseKeepsLevel(t: Tables, tpl: seq<Token>, toks: seq<Token>)
    requires t.Sane() && |tpl| == |toks|
    ensures InferLevel(t, Generalise(tpl, toks)) <= InferLevel(t, tpl)
  {
    KeywordLevelFalls(t, tpl, Generalise(tpl, toks));
  }

  // --- what a token says, by its parts --------------------------------------------------------------

  /** Letters, digits and '_', and the capitals alone, by their codes. */
  predicate Capital(c: char) {
    65 <= c as int <= 90
  }

  predicate WordChar(c: char) {
    Capital(c) || 97 <= c as int <= 122 || 48 <= c as int <= 57 || c as int == 95
  }

  predicate MaskChar(c: char) {
    Capital(c) || c as int == 42
  }

  lemma CharsAre(c: char)
    ensures WordChar(c) <==> IsWord(c)
    ensures MaskChar(c) <==> 'A' <= c <= 'Z' || c == '*'
  {
    assert 'A' as int == 65 && 'Z' as int == 90 && 'a' as int == 97 && 'z' as int == 122 && '0' as int == 48 && '9' as int == 57;
    assert '_' as int == 95 && '*' as int == 42;
  }

  /** A mask or parameter from i to k: capitals and stars between angle brackets. */
  predicate IsMask(s: string, i: nat, k: nat) {
    i + 3 <= k <= |s| && s[i] == '<' && s[k-1] == '>' && forall j :: i < j < k - 1 ==> MaskChar(s[j])
  }

  /** A word from i to k that does not go on after it. */
  predicate IsWordUpTo(s: string, i: nat, k: nat) {
    i < k <= |s| && (forall j :: i <= j < k ==> WordChar(s[j])) && (k < |s| ==> !WordChar(s[k]))
  }

  /** Neither a character of a word nor the start of a mask. */
  ghost predicate IsGap(s: string, i: nat) {
    i < |s| && !WordChar(s[i]) && forall k: nat :: !IsMask(s, i, k)
  }

  datatype Part = Part(from: nat, end: nat, mask: bool)

  /** From i on the token consists of these parts, masks and words, and gaps between them. */
  ghost predicate Parted(s: string, parts: seq<Part>, i: nat) {
    if parts == [] then forall j :: i <= j < |s| ==> IsGap(s, j)
    else
      var x := parts[0];
      && i <= x.from < x.end <= |s| && (forall j :: i <= j < x.from ==> IsGap(s, j))
      && (if x.mask then IsMask(s, x.from, x.end) else IsWordUpTo(s, x.from, x.end))
      && Parted(s, parts[1..], x.end)
  }

  /** A word counts for the level unless it is a key or has "non-" before it. */
  predicate Counts(t: Tables, s: string, x: Part)
    requires x.from <= x.end <= |s|
  {
    !x.mask && !(x.end < |s| && s[x.end] == '=') && !(x.from >= 4 && t.Lower(s[x.from-4..x.from]) == "non-")
  }

  /** The highest level of the words that count, and all words in lower case with the masks between. */
  ghost function Said(t: Tables, s: string, parts: seq<Part>, i: nat): Reading
    requires Parted(s, parts, i)
  {
    if parts == [] then Reading(0, [])
    else
      var x, r := parts[0], Said(t, s, parts[1..], parts[0].end);
      Reading(if Counts(t, s, x) then Max(t.Level(s[x.from..x.end]), r.level) else r.level,
              [if x.mask then "" else t.Lower(s[x.from..x.end])] + r.words)
  }

  lemma {:induction false} MaskCharsIs(s: string, j: nat)
    requires j <= |s|
    ensures var k := MaskChars(s, j);
      k <= |s| && (forall x :: j <= x < k ==> MaskChar(s[x])) && (k < |s| ==> !MaskChar(s[k]))
    decreases |s| - j
  {
    hide MaskChar;
    if j < |s| {
      CharsAre(s[j]);
      if MaskChar(s[j]) {
        MaskCharsIs(s, j + 1);
      }
    }
  }

  lemma MaskEndIs(s: string, i: nat, k: nat)
    requires i < |s| && s[i] == '<'
    ensures MaskEnd(s, i) > 0 ==> IsMask(s, i, MaskEnd(s, i))
    ensures IsMask(s, i, k) ==> MaskEnd(s, i) == k
  {
    hide MaskChars;
    MaskCharsIs(s, i + 1);
    CharsAre('>');
    var e := MaskChars(s, i + 1);
    if IsMask(s, i, k) && e != k - 1 {
      assert false;
    }
  }

  lemma {:induction false} WordEndIs(s: string, j: nat, k: nat)
    requires j <= k <= |s| && (forall x :: j <= x < k ==> WordChar(s[x])) && (k < |s| ==> !WordChar(s[k]))
    ensures WordEnd(s, j) == k
    decreases k - j
  {
    hide WordChar;
    if j < |s| {
      CharsAre(s[j]);
    }
    if j < k {
      WordEndIs(s, j + 1, k);
    }
  }

  lemma GapRead(t: Tables, s: string, i: nat)
    requires IsGap(s, i)
    ensures ReadFrom(t, s, i) == ReadFrom(t, s, i + 1)
  {
    CharsAre(s[i]);
    if s[i] == '<' {
      MaskEndIs(s, i, MaskEnd(s, i));
    }
  }

  lemma {:induction false} GapsRead(t: Tables, s: string, i: nat, k: nat)
    requires i <= k <= |s| && forall j :: i <= j < k ==> IsGap(s, j)
    ensures ReadFrom(t, s, i) == ReadFrom(t, s, k)
    decreases k - i
  {
    hide IsGap, ReadFrom;
    if i < k {
      GapRead(t, s, i);
      GapsRead(t, s, i + 1, k);
    }
  }

  lemma PartRead(t: Tables, s: string, x: Part)
    requires x.from < x.end <= |s| && if x.mask then IsMask(s, x.from, x.end) else IsWordUpTo(s, x.from, x.end)
    ensures var r := ReadFrom(t, s, x.end);
      ReadFrom(t, s, x.from) == Reading(if Counts(t, s, x) then Max(t.Level(s[x.from..x.end]), r.level) else r.level,
                                        [if x.mask then "" else t.Lower(s[x.from..x.end])] + r.words)
  {
    hide WordEnd, MaskEnd, WordChar, MaskChar;
    CharsAre(s[x.from]);
    if x.mask {
      MaskEndIs(s, x.from, x.end);
    } else {
      WordEndIs(s, x.from + 1, x.end);
    }
  }

  /** A token says what its parts say; words inside of a path or URL say nothing. */
  lemma {:induction false} ReadIs(t: Tables, s: string, parts: seq<Part>, i: nat)
    requires i <= |s| && Parted(s, parts, i)
    ensures ReadFrom(t, s, i) == Said(t, s, parts, i)
    decreases |parts|
  {
    hide ReadFrom, IsGap, IsMask, IsWordUpTo, Counts;
    if parts == [] {
      GapsRead(t, s, i, |s|);
      EndRead(t, s);
    } else {
      GapsRead(t, s, i, parts[0].from);
      PartRead(t, s, parts[0]);
      ReadIs(t, s, parts[1..], parts[0].end);
    }
  }

  lemma EndRead(t: Tables, s: string)
    ensures ReadFrom(t, s, |s|) == Reading(0, [])
  {
  }

  lemma TokenIs(t: Tables, s: Token, parts: seq<Part>)
    requires Parted(s, parts, 0)
    ensures ReadToken(t, s) == if '/' in s then Reading(0, [""]) else Said(t, s, parts, 0)
  {
    ReadIs(t, s, parts, 0);
  }

  /** And it always has such parts. */
  lemma {:induction false} HasParts(s: string, i: nat) returns (parts: seq<Part>)
    requires i <= |s|
    ensures Parted(s, parts, i)
    decreases |s| - i
  {
    hide WordChar, MaskChar;
    if i == |s| {
      parts := [];
    } else if k: nat :| IsMask(s, i, k) {
      var rest := HasParts(s, k);
      parts := [Part(i, k, true)] + rest;
      assert parts[1..] == rest;
    } else if WordChar(s[i]) {
      var k := WordStop(s, i);
      var rest := HasParts(s, k);
      parts := [Part(i, k, false)] + rest;
      assert parts[1..] == rest;
    } else {
      assert IsGap(s, i);
      parts := HasParts(s, i + 1);
    }
  }

  lemma {:induction false} WordStop(s: string, i: nat) returns (k: nat)
    requires i < |s| && WordChar(s[i])
    ensures IsWordUpTo(s, i, k)
    decreases |s| - i
  {
    hide WordChar;
    if i + 1 < |s| && WordChar(s[i+1]) {
      k := WordStop(s, i + 1);
    } else {
      k := i + 1;
    }
  }

  /** The level is at least n exactly if some token says so or a phrase of that level occurs in their words. */
  lemma InferredFrom(t: Tables, toks: seq<Token>, n: nat)
    requires n > 0
    ensures InferLevel(t, toks) >= n <==>
      || (exists i :: 0 <= i < |toks| && ReadToken(t, toks[i]).level >= n)
      || (exists p :: p in t.phrases && p.level >= n && HasRun(Words(t, toks), p.words))
  {
    WordLevelIs(t, toks, n);
    PhraseLevelIs(t.phrases, Words(t, toks), n);
  }

  lemma {:induction false} WordLevelIs(t: Tables, toks: seq<Token>, n: nat)
    requires n > 0
    ensures WordLevel(t, toks) >= n <==> exists i :: 0 <= i < |toks| && ReadToken(t, toks[i]).level >= n
  {
    hide ReadToken;
    if toks != [] {
      WordLevelIs(t, toks[1..], n);
      assert forall i :: 0 < i < |toks| ==> toks[i] == toks[1..][i-1];
    }
  }

  lemma {:induction false} PhraseLevelIs(phrases: seq<Phrase>, words: seq<string>, n: nat)
    requires n > 0
    ensures PhraseLevel(phrases, words) >= n <==> exists p :: p in phrases && p.level >= n && HasRun(words, p.words)
  {
    hide HasRun;
    if phrases != [] {
      PhraseLevelIs(phrases[1..], words, n);
      assert phrases == [phrases[0]] + phrases[1..];
    }
  }

  predicate RunsAt(words: seq<string>, run: seq<string>, k: nat) {
    k + |run| <= |words| && words[k..k+|run|] == run
  }

  /** A phrase occurs exactly if its words stand next to each other somewhere. */
  lemma {:induction false} HasRunIs(words: seq<string>, run: seq<string>)
    ensures HasRun(words, run) <==> exists k :: RunsAt(words, run, k)
  {
    hide RunsAt;
    RunStarts(words, run);
    if words == [] {
      OnlyStart(run);
    } else {
      HasRunIs(words[1..], run);
      if k: nat :| RunsAt(words, run, k) && k > 0 {
        RunsShift(words, run, k - 1);
      }
      if k: nat :| RunsAt(words[1..], run, k) {
        RunsShift(words, run, k);
      }
    }
  }

  lemma OnlyStart(run: seq<string>)
    ensures forall k :: RunsAt([], run, k) ==> k == 0
  {
  }

  lemma RunsShift(words: seq<string>, run: seq<string>, k: nat)
    requires words != []
    ensures RunsAt(words, run, k + 1) <==> RunsAt(words[1..], run, k)
  {
    if k + 1 + |run| <= |words| {
      assert words[1..][k..k+|run|] == words[k+1..k+1+|run|];
    }
  }

  lemma RunStarts(words: seq<string>, run: seq<string>)
    ensures run <= words <==> RunsAt(words, run, 0)
  {
  }

  /** The words of tokens are those of each, in order. */
  lemma {:induction false} WordsConcat(t: Tables, a: seq<Token>, b: seq<Token>)
    ensures Words(t, a + b) == Words(t, a) + Words(t, b)
    ensures |a| == 1 ==> Words(t, a) == ReadToken(t, a[0]).words
  {
    hide ReadToken;
    if a == [] {
      assert a + b == b;
    } else {
      assert (a + b)[1..] == a[1..] + b;
      WordsConcat(t, a[1..], b);
    }
  }
}
