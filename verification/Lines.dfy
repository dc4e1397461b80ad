/** Cutting log lines from read chunks, and rejoining lines that a container runtime split. Strings
    stand for byte strings. */
module Lines {
  import opened Options

  const MAX_LINE: nat := 0x10_0000

  // --- container envelopes ------------------------------------------------------------------------

  datatype Envelope = Envelope(text: string, stderr: bool, partial: bool)

  datatype Format = Off | CriFormat | DockerFormat | Auto

  /** Parses container envelopes. fields gives the values of "log" and "stream" of a JSON line. */
  datatype Unwrapper = Unwrapper(format: Format, fields: string -> Option<(string, string)>)
  {
    function Fields(line: string): Option<(string, string)> {
      fields(line)
    }
  }

  /** The position of c in s, if it occurs, else -1. */
  function IndexOf(s: string, c: char): (i: int)
    ensures -1 <= i < |s|
    ensures i >= 0 ==> s[i] == c
    ensures forall j :: 0 <= j < (if i < 0 then |s| else i) ==> s[j] != c
  {
    if s == "" then -1
    else if s[0] == c then 0
    else var i := IndexOf(s[1..], c); if i < 0 then -1 else i + 1
  }

  /** A line of containerd or CRI-O: a timestamp, the stream, a tag and the text. */
  function Cri(line: string): Option<Envelope> {
    var i := IndexOf(line, ' ');
    if i <= 0 || line[0] < '0' || line[0] > '9' then None
    else
      var rest := line[i+1..];
      if "stdout " <= rest then Tagged(rest[7..], false)
      else if "stderr " <= rest then Tagged(rest[7..], true)
      else None
  }

  function Tagged(rest: string, stderr: bool): Option<Envelope> {
    var j := IndexOf(rest, ' ');
    var tag, text := if j >= 0 then rest[..j] else rest, if j >= 0 then rest[j+1..] else "";
    if tag == "" || (tag[0] != 'P' && tag[0] != 'F') then None else Some(Envelope(text, stderr, tag[0] == 'P'))
  }

  /** A line of Docker's json-file driver; a text without a final newline is a chunk. */
  function Docker(u: Unwrapper, line: string): Option<Envelope> {
    var v := u.Fields(line);
    if v.None? || (v.value.1 != "stdout" && v.value.1 != "stderr") then None
    else
      var text, stderr := v.value.0, v.value.1 == "stderr";
      if text != "" && text[|text|-1] == '\n' then Some(Envelope(text[..|text|-1], stderr, false))
      else Some(Envelope(text, stderr, true))
  }

  function Unwrap(u: Unwrapper, line: string): Option<Envelope> {
    match u.format
    case Off => None
    case CriFormat => Cri(line)
    case DockerFormat => Docker(u, line)
    case Auto => if "{" <= line then Docker(u, line) else Cri(line)
  }

  // --- envelopes as the runtimes write them -----------------------------------------------------------

  /** A time stamp as far as it is looked at, and a tag: P for a chunk, F for a full line or the last chunk of one. */
  predicate IsStamp(s: string) {
    s != "" && s[0] in "0123456789" && ' ' !in s
  }

  predicate IsTag(s: string) {
    s != "" && s[0] in "PF" && ' ' !in s
  }

  /** What stands before the text. */
  function CriHead(stamp: string, stderr: bool, tag: string): string {
    stamp + " " + (Stream(stderr) + tag)
  }

  function Stream(stderr: bool): (r: string)
    ensures |r| == 7
  {
    if stderr then "stderr " else "stdout "
  }

  lemma Regroup(a: string, b: string, c: string, d: string, e: string)
    ensures a + b + (c + d) + e == a + b + (c + (d + e))
  {
    assert c + d + e == c + (d + e);
  }

  lemma FirstSpace(a: string, b: string)
    requires ' ' !in a
    ensures IndexOf(a + " " + b, ' ') == |a| && IndexOf(a, ' ') == -1
    ensures (a + " " + b)[..|a|] == a && (a + " " + b)[|a|+1..] == b
  {
    var s := a + " " + b;
    assert s[|a|] == ' ';
    forall j | 0 <= j < |a| ensures s[j] != ' ' {
      assert s[j] == a[j];
    }
  }

  lemma DigitsAre(c: char)
    ensures c in "0123456789" <==> '0' <= c <= '9'
  {
    if '0' <= c <= '9' {
      assert "0123456789"[c as int - 48] == c;
    }
  }

  lemma TaggedIs(tag: string, text: string, stderr: bool)
    requires ' ' !in tag
    ensures Tagged(tag + " " + text, stderr) == (if IsTag(tag) then Some(Envelope(text, stderr, tag[0] == 'P')) else None)
    ensures Tagged(tag, stderr) == if IsTag(tag) then Some(Envelope("", stderr, tag[0] == 'P')) else None
  {
    FirstSpace(tag, text);
    assert forall c: char :: c in "PF" <==> c == 'P' || c == 'F';
  }

  lemma HeadAndText(stamp: string, stderr: bool, tag: string, text: string)
    ensures CriHead(stamp, stderr, tag) + " " + text == stamp + " " + (Stream(stderr) + (tag + " " + text))
  {
    hide Stream;
    Regroup(stamp, " ", Stream(stderr), tag, " " + text);
    assert CriHead(stamp, stderr, tag) + " " + text == CriHead(stamp, stderr, tag) + (" " + text);
    assert tag + " " + text == tag + (" " + text);
  }

  /** The name of a stream is told by what follows the stamp. */
  lemma StreamIs(rest: string, stderr: bool, more: string)
    ensures rest == Stream(stderr) + more <==> Stream(stderr) <= rest && rest[7..] == more
    ensures Stream(stderr) <= rest ==> !(Stream(!stderr) <= rest)
  {
    assert |Stream(stderr)| == 7 && Stream(stderr)[3] == (if stderr then 'e' else 'o');
    if Stream(stderr) <= rest {
      assert rest == rest[..7] + rest[7..];
      assert rest[3] == Stream(stderr)[3];
    }
  }

  lemma CriAfterStamp(line: string, stderr: bool)
    ensures var i := IndexOf(line, ' ');
      i > 0 && '0' <= line[0] <= '9' && Stream(stderr) <= line[i+1..] ==> Cri(line) == Tagged(line[i+1..][7..], stderr)
    ensures var i := IndexOf(line, ' ');
      Cri(line).Some? ==> i > 0 && '0' <= line[0] <= '9' && (Stream(true) <= line[i+1..] || Stream(false) <= line[i+1..])
  {
    hide IndexOf, Tagged;
    var i := IndexOf(line, ' ');
    if i > 0 && Stream(stderr) <= line[i+1..] {
      StreamIs(line[i+1..], stderr, line[i+1..][7..]);
    }
  }

  /** A line of containerd or CRI-O comes apart into its text, its stream and whether it is a chunk; the space
      before an empty text may be missing. */
  lemma CriReads(stamp: string, stderr: bool, tag: string, text: string)
    requires IsStamp(stamp) && IsTag(tag)
    ensures Cri(CriHead(stamp, stderr, tag) + " " + text) == Some(Envelope(text, stderr, tag[0] == 'P'))
    ensures Cri(CriHead(stamp, stderr, tag)) == Some(Envelope("", stderr, tag[0] == 'P'))
  {
    hide Cri, Tagged, Stream, IsTag;
    DigitsAre(stamp[0]);
    CriRest(stamp, stderr, tag + " " + text);
    CriRest(stamp, stderr, tag);
    HeadAndText(stamp, stderr, tag, text);
    TagParts(tag);
    TaggedIs(tag, text, stderr);
  }

  lemma TagParts(tag: string)
    requires IsTag(tag)
    ensures tag != "" && ' ' !in tag
  {
  }

  lemma CriRest(stamp: string, stderr: bool, rest: string)
    requires stamp != "" && '0' <= stamp[0] <= '9' && ' ' !in stamp
    ensures Cri(stamp + " " + (Stream(stderr) + rest)) == Tagged(rest, stderr)
  {
    hide Cri, Tagged, Stream, IndexOf;
    var more := Stream(stderr) + rest;
    FirstSpace(stamp, more);
    assert (stamp + " " + more)[0] == stamp[0];
    StreamIs(more, stderr, rest);
    CriAfterStamp(stamp + " " + more, stderr);
  }

  /** Nothing else is such a line. */
  lemma CriOnly(line: string) returns (stamp: string, tag: string)
    ensures Cri(line).Some? ==>
      var e := Cri(line).value;
      && IsStamp(stamp) && IsTag(tag) && tag != "" && e.partial == (tag[0] == 'P')
      && (line == CriHead(stamp, e.stderr, tag) + " " + e.text || (e.text == "" && line == CriHead(stamp, e.stderr, tag)))
  {
    hide Cri, Stream, Tagged, IsTag, IsStamp;
    stamp, tag := "", "";
    if Cri(line).Some? {
      var more;
      stamp, more := CriStart(line);
      var e := Cri(line).value;
      tag := TaggedOnly(more, e.stderr);
      TagParts(tag);
      HeadAndText(stamp, e.stderr, tag, e.text);
    }
  }

  lemma CriStart(line: string) returns (stamp: string, more: string)
    requires Cri(line).Some?
    ensures var e := Cri(line).value; IsStamp(stamp) && line == stamp + " " + (Stream(e.stderr) + more) && Tagged(more, e.stderr) == Some(e)
  {
    hide Cri, Tagged, Stream, IndexOf;
    var i := IndexOf(line, ' ');
    CriAfterStamp(line, true);
    CriAfterStamp(line, false);
    stamp := line[..i];
    DigitsAre(line[0]);
    var rest, stderr := line[i+1..], Stream(true) <= line[i+1..];
    more := rest[7..];
    StreamIs(rest, stderr, more);
    TaggedStream(more);
    assert line == stamp + " " + rest;
  }

  lemma TaggedStream(rest: string)
    ensures forall stderr {:trigger Tagged(rest, stderr)} :: Tagged(rest, stderr).Some? ==> Tagged(rest, stderr).value.stderr == stderr
  {
    hide IndexOf;
  }

  lemma TaggedOnly(rest: string, stderr: bool) returns (tag: string)
    requires Tagged(rest, stderr).Some?
    ensures var e := Tagged(rest, stderr).value;
      IsTag(tag) && e.partial == (tag[0] == 'P') && (rest == tag + " " + e.text || (e.text == "" && rest == tag))
  {
    var j := IndexOf(rest, ' ');
    tag := if j >= 0 then rest[..j] else rest;
    assert "PF"[0] == 'P' && "PF"[1] == 'F';
  }

  /** With either setting that reads such lines, a line is the envelope that was written, and any other line that does
      not start like a JSON object is none. */
  lemma CriUnwraps(u: Unwrapper, stamp: string, stderr: bool, tag: string, text: string)
    requires IsStamp(stamp) && IsTag(tag) && (u.format == CriFormat || u.format == Auto)
    ensures Unwrap(u, CriHead(stamp, stderr, tag) + " " + text) == Some(Envelope(text, stderr, tag[0] == 'P'))
    ensures Unwrap(u, CriHead(stamp, stderr, tag)) == Some(Envelope("", stderr, tag[0] == 'P'))
  {
    hide Cri;
    CriReads(stamp, stderr, tag, text);
    assert (CriHead(stamp, stderr, tag) + " " + text)[0] == stamp[0] == CriHead(stamp, stderr, tag)[0];
  }

  /** A JSON line of Docker: a text that ends in a newline is a full line without it, any other text a chunk; a
      line without the two fields or of another stream is no envelope. */
  lemma DockerUnwraps(u: Unwrapper, line: string, text: string, stream: string)
    requires u.format == DockerFormat || (u.format == Auto && "{" <= line)
    ensures u.Fields(line) == None ==> Unwrap(u, line) == None
    ensures u.Fields(line) == Some((text, stream)) && stream !in {"stdout", "stderr"} ==> Unwrap(u, line) == None
    ensures u.Fields(line) == Some((text + "\n", stream)) && stream in {"stdout", "stderr"} ==>
      Unwrap(u, line) == Some(Envelope(text, stream == "stderr", false))
    ensures u.Fields(line) == Some((text, stream)) && stream in {"stdout", "stderr"} && (text == "" || text[|text|-1] != '\n') ==>
      Unwrap(u, line) == Some(Envelope(text, stream == "stderr", true))
  {
    assert (text + "\n")[..|text|] == text;
  }

  // --- lines of a stream ----------------------------------------------------------------------------

  /** What follows the last newline of s. */
  function Rest(s: string): string {
    if s == "" then "" else if s[|s|-1] == '\n' then "" else Rest(s[..|s|-1]) + [s[|s|-1]]
  }

  /** The complete lines of s, without their newlines. */
  function Complete(s: string): seq<string> {
    if s == "" then []
    else if s[|s|-1] == '\n' then Complete(s[..|s|-1]) + [Rest(s[..|s|-1])]
    else Complete(s[..|s|-1])
  }

  /** No line of s, finished or not, is longer than the limit. */
  ghost predicate Short(s: string) {
    forall k {:trigger s[..k]} :: 0 <= k <= |s| ==> |Rest(s[..k])| <= 1024 * 1024
  }

  lemma ShortPrefix(s: string, k: nat)
    requires Short(s) && k <= |s|
    ensures Short(s[..k])
  {
    forall j | 0 <= j <= k ensures |Rest(s[..k][..j])| <= MAX_LINE {
      assert s[..k][..j] == s[..j];
    }
  }

  lemma ShortWhole(s: string)
    requires Short(s)
    ensures |Rest(s)| <= MAX_LINE
  {
    assert s[..|s|] == s;
  }

  /** Bytes without a newline extend the unfinished line. */
  lemma {:induction false} Extend(s: string, t: string)
    requires '\n' !in t
    ensures Rest(s + t) == Rest(s) + t && Complete(s + t) == Complete(s)
  {
    if t == "" {
      assert s + t == s;
    } else {
      Extend(s, t[..|t|-1]);
      assert (s + t)[..|s + t|-1] == s + t[..|t|-1];
      assert t == t[..|t|-1] + [t[|t|-1]];
    }
  }

  /** Bytes up to a newline finish it. */
  lemma Finish(s: string, t: string)
    requires '\n' !in t
    ensures Rest(s + t + "\n") == "" && Complete(s + t + "\n") == Complete(s) + [Rest(s) + t]
  {
    Extend(s, t);
    assert (s + t + "\n")[..|s + t|] == s + t;
  }

  // --- messages of lines ----------------------------------------------------------------------------

  /** s without the carriage returns at its end. */
  function TrimCR(s: string): (r: string)
    ensures r <= s && (forall i :: |r| <= i < |s| ==> s[i] == '\r') && (r == "" || r[|r|-1] != '\r')
  {
    if s != "" && s[|s|-1] == '\r' then TrimCR(s[..|s|-1]) else s
  }

  datatype Source = Plain | Stdout | Stderr

  datatype Message = Message(source: Source, text: string)

  /** The chunks of unfinished container lines of both streams. */
  datatype Parts = Parts(out: string, err: string)

  function Part(p: Parts, stderr: bool): string {
    if stderr then p.err else p.out
  }

  function SetPart(p: Parts, stderr: bool, s: string): Parts {
    if stderr then p.(err := s) else p.(out := s)
  }

  function SourceOf(e: Envelope): Source {
    if e.stderr then Stderr else Stdout
  }

  function Mine(source: Source, text: string): Option<Message> {
    var t := TrimCR(text);
    if t == "" then None else Some(Message(source, t))
  }

  /** One envelope: chunks wait for the rest of their line unless it grows too long. */
  function JoinStep(p: Parts, e: Envelope): (Parts, Option<Message>) {
    var joined := Part(p, e.stderr) + e.text;
    if e.partial && |joined| < MAX_LINE then (SetPart(p, e.stderr, joined), None)
    else (SetPart(p, e.stderr, ""), Mine(SourceOf(e), joined))
  }

  /** One line: the message to mine, if it completes one. */
  function LineStep(u: Unwrapper, p: Parts, line: string): (Parts, Option<Message>) {
    var b := TrimCR(line);
    if b == "" then (p, None)
    else
      match Unwrap(u, b)
      case Some(e) => JoinStep(p, e)
      case None => (p, Some(Message(Plain, b)))
  }

  function PartsAfter(u: Unwrapper, lines: seq<string>): Parts {
    if lines == [] then Parts("", "") else LineStep(u, PartsAfter(u, lines[..|lines|-1]), lines[|lines|-1]).0
  }

  /** The messages of some lines, in order. */
  function Messages(u: Unwrapper, lines: seq<string>): seq<Message> {
    if lines == [] then []
    else
      var before, line := lines[..|lines|-1], lines[|lines|-1];
      Messages(u, before) + Known(LineStep(u, PartsAfter(u, before), line).1)
  }

  lemma MessagesMore(u: Unwrapper, lines: seq<string>, line: string)
    ensures PartsAfter(u, lines + [line]) == LineStep(u, PartsAfter(u, lines), line).0
    ensures Messages(u, lines + [line]) == Messages(u, lines) + Known(LineStep(u, PartsAfter(u, lines), line).1)
  {
    assert (lines + [line])[..|lines|] == lines;
  }

  // --- the messages of one stream ---------------------------------------------------------------------

  /** The envelopes of one stream among some lines. */
  function Envelopes(u: Unwrapper, lines: seq<string>, stderr: bool): seq<Envelope> {
    if lines == [] then []
    else
      var b := TrimCR(lines[|lines|-1]);
      var e := if b == "" then None else Unwrap(u, b);
      Envelopes(u, lines[..|lines|-1], stderr) + if e.Some? && e.value.stderr == stderr then [e.value] else []
  }

  /** The messages that came from one source. */
  function From(ms: seq<Message>, source: Source): seq<string> {
    if ms == [] then []
    else From(ms[..|ms|-1], source) + if ms[|ms|-1].source == source then [ms[|ms|-1].text] else []
  }

  lemma FromMore(ms: seq<Message>, m: Option<Message>, source: Source)
    ensures From(ms + Known(m), source) == From(ms, source) + if m.Some? && m.value.source == source then [m.value.text] else []
  {
    if m.Some? {
      assert (ms + [m.value])[..|ms|] == ms;
    } else {
      assert ms + [] == ms;
      assert From(ms, source) + [] == From(ms, source);
    }
  }

  /** What waits for the rest of its line, and the messages, of the envelopes of one stream alone. */
  function Waiting(es: seq<Envelope>): string {
    if es == [] then ""
    else
      var e, joined := es[|es|-1], Waiting(es[..|es|-1]) + es[|es|-1].text;
      if e.partial && |joined| < MAX_LINE then joined else ""
  }

  function Texts(es: seq<Envelope>): seq<string> {
    if es == [] then []
    else
      var e, joined := es[|es|-1], Waiting(es[..|es|-1]) + es[|es|-1].text;
      Texts(es[..|es|-1]) + if e.partial && |joined| < MAX_LINE then [] else Nonempty(TrimCR(joined))
  }

  function Nonempty(s: string): seq<string> {
    if s == "" then [] else [s]
  }

  lemma EnvelopesMore(es: seq<Envelope>, e: Envelope)
    ensures var joined := Waiting(es) + e.text;
      && Waiting(es + [e]) == (if e.partial && |joined| < MAX_LINE then joined else "")
      && Texts(es + [e]) == Texts(es) + if e.partial && |joined| < MAX_LINE then [] else Nonempty(TrimCR(joined))
  {
    assert (es + [e])[..|es|] == es;
  }

  /** What one line does to one stream. */
  lemma LineStepSide(u: Unwrapper, p: Parts, line: string, stderr: bool)
    ensures var b, (after, m), source := TrimCR(line), LineStep(u, p, line), if stderr then Stderr else Stdout;
      var e := if b == "" then None else Unwrap(u, b);
      var mine := if m.Some? && m.value.source == source then [m.value.text] else [];
      if e.Some? && e.value.stderr == stderr then
        var joined := Part(p, stderr) + e.value.text;
        if e.value.partial && |joined| < MAX_LINE then Part(after, stderr) == joined && mine == []
        else Part(after, stderr) == "" && mine == Nonempty(TrimCR(joined))
      else Part(after, stderr) == Part(p, stderr) && mine == []
  {
  }

  /** The messages rebuilt for one stream depend only on the envelopes of that stream, whatever lines of
      the other stream or without an envelope come between. */
  lemma {:induction false} StreamsSeparate(u: Unwrapper, lines: seq<string>, stderr: bool)
    ensures Part(PartsAfter(u, lines), stderr) == Waiting(Envelopes(u, lines, stderr))
    ensures From(Messages(u, lines), if stderr then Stderr else Stdout) == Texts(Envelopes(u, lines, stderr))
  {
    if lines != [] {
      hide Unwrap, TrimCR, Waiting, Texts, LineStep, From, Nonempty;
      var before, line := lines[..|lines|-1], lines[|lines|-1];
      StreamsSeparate(u, before, stderr);
      var b, p := TrimCR(line), PartsAfter(u, before);
      var m := LineStep(u, p, line).1;
      LineStepSide(u, p, line, stderr);
      FromMore(Messages(u, before), m, if stderr then Stderr else Stdout);
      var es := Envelopes(u, before, stderr);
      var e := if b == "" then None else Unwrap(u, b);
      if e.Some? && e.value.stderr == stderr {
        EnvelopesMore(es, e.value);
      } else {
        assert Envelopes(u, lines, stderr) == es + [] == es;
        assert Texts(es) + [] == Texts(es);
      }
    }
  }

  /** The lines that are no envelopes, without carriage returns at the end; empty ones are skipped. */
  function PlainLines(u: Unwrapper, lines: seq<string>): seq<string> {
    if lines == [] then []
    else
      var b := TrimCR(lines[|lines|-1]);
      PlainLines(u, lines[..|lines|-1]) + if b != "" && Unwrap(u, b).None? then [b] else []
  }

  /** They are the messages without a stream, whatever envelopes come between. */
  lemma {:induction false} PlainMessages(u: Unwrapper, lines: seq<string>)
    ensures From(Messages(u, lines), Plain) == PlainLines(u, lines)
  {
    hide Unwrap, TrimCR, From, LineStep, PlainLines, Messages, PartsAfter;
    if lines == [] {
      NoLines(u);
    } else {
      var before, line := lines[..|lines|-1], lines[|lines|-1];
      assert lines == before + [line];
      PlainMessages(u, before);
      var m := LineStep(u, PartsAfter(u, before), line).1;
      MessagesMore(u, before, line);
      FromMore(Messages(u, before), m, Plain);
      PlainStep(u, PartsAfter(u, before), line);
      PlainMore(u, before, line);
    }
  }

  lemma NoLines(u: Unwrapper)
    ensures From(Messages(u, []), Plain) == PlainLines(u, [])
  {
  }

  lemma PlainMore(u: Unwrapper, lines: seq<string>, line: string)
    ensures var b := TrimCR(line);
      PlainLines(u, lines + [line]) == PlainLines(u, lines) + if b != "" && Unwrap(u, b).None? then [b] else []
  {
    assert (lines + [line])[..|lines|] == lines;
  }

  lemma PlainStep(u: Unwrapper, p: Parts, line: string)
    ensures var b, m := TrimCR(line), LineStep(u, p, line).1;
      (if m.Some? && m.value.source == Plain then [m.value.text] else []) == if b != "" && Unwrap(u, b).None? then [b] else []
  {
  }

  // --- the reference: groups of chunks ------------------------------------------------------------------

  /** The text of the chunks since the last full envelope. */
  function Tail(es: seq<Envelope>): string {
    if es == [] || !es[|es|-1].partial then "" else Tail(es[..|es|-1]) + es[|es|-1].text
  }

  /** Every full envelope closes a group: its text is that of the chunks before it and its own. */
  function Groups(es: seq<Envelope>): seq<string> {
    if es == [] then []
    else if es[|es|-1].partial then Groups(es[..|es|-1])
    else Groups(es[..|es|-1]) + Nonempty(TrimCR(Tail(es[..|es|-1]) + es[|es|-1].text))
  }

  /** No group of chunks reaches the limit. */
  ghost predicate SmallGroups(es: seq<Envelope>) {
    forall k {:trigger es[..k]} :: 0 <= k <= |es| ==> |Tail(es[..k])| < 1024 * 1024
  }

  /** While no joined line reaches the limit, the messages of a stream are exactly its groups. */
  lemma {:induction false} TextsAreGroups(es: seq<Envelope>)
    requires SmallGroups(es)
    ensures Waiting(es) == Tail(es) && Texts(es) == Groups(es)
  {
    if es != [] {
      var before := es[..|es|-1];
      forall k | 0 <= k <= |before| ensures |Tail(before[..k])| < MAX_LINE {
        assert before[..k] == es[..k];
      }
      TextsAreGroups(before);
      assert es[..|es|] == es;
    }
  }

  /** Two runs whose lines hold the same envelopes of a stream rebuild the same messages of it; while no
      group of chunks reaches the limit, those are the texts of its groups. */
  lemma SameEnvelopesSameMessages(u: Unwrapper, a: seq<string>, b: seq<string>, stderr: bool)
    requires Envelopes(u, a, stderr) == Envelopes(u, b, stderr)
    ensures var source := if stderr then Stderr else Stdout;
      && From(Messages(u, a), source) == From(Messages(u, b), source)
      && (SmallGroups(Envelopes(u, a, stderr)) ==> From(Messages(u, a), source) == Groups(Envelopes(u, a, stderr)))
  {
    StreamsSeparate(u, a, stderr);
    StreamsSeparate(u, b, stderr);
    if SmallGroups(Envelopes(u, a, stderr)) {
      TextsAreGroups(Envelopes(u, a, stderr));
    }
  }

  // --- reading ------------------------------------------------------------------------------------------

  /** What one tailed file has pending, and the messages handed to the miner so far. */
  datatype FileState = FileState(partial: string, cpart: Parts, mined: seq<Message>)

  /** The line b is handed on, and the next one starts. */
  function Handed(u: Unwrapper, f: FileState, b: string): FileState {
    var (parts, m) := LineStep(u, f.cpart, b);
    FileState("", parts, f.mined + Known(m))
  }

  /** One chunk: every newline ends a line; what is left waits, unless it grows too long. */
  function Fed(u: Unwrapper, f: FileState, data: string): FileState
    decreases |data|
  {
    var i := IndexOf(data, '\n');
    if i >= 0 then Fed(u, Handed(u, f, f.partial + data[..i]), data[i+1..])
    else if |f.partial + data| > MAX_LINE then Handed(u, f, f.partial + data)
    else f.(partial := f.partial + data)
  }

  /** What is pending stays within the limit, whatever is read. */
  predicate Bounded(f: FileState) {
    |f.partial| <= 1024 * 1024 && |f.cpart.out| < 1024 * 1024 && |f.cpart.err| < 1024 * 1024
  }

  lemma {:induction false} FedBounded(u: Unwrapper, f: FileState, data: string)
    requires Bounded(f)
    ensures Bounded(Fed(u, f, data))
    decreases |data|
  {
    hide TrimCR, Unwrap;
    var i := IndexOf(data, '\n');
    if i >= 0 {
      FedBounded(u, Handed(u, f, f.partial + data[..i]), data[i+1..]);
    }
  }

  /** An unfinished line that grows beyond the limit is handed on at once, and so is a joined one that reaches it. */
  lemma LongLineHandedOn(u: Unwrapper, f: FileState, data: string, p: Parts, e: Envelope)
    ensures '\n' !in data && |f.partial| + |data| > 1024 * 1024 ==> Fed(u, f, data) == Handed(u, f, f.partial + data)
    ensures |Part(p, e.stderr)| + |e.text| >= 1024 * 1024 ==>
      JoinStep(p, e).1 == Mine(if e.stderr then Stderr else Stdout, Part(p, e.stderr) + e.text)
  {
    assert |f.partial + data| == |f.partial| + |data|;
  }

  /** The state that a file with the bytes s is in while no line is too long. */
  function StateOf(u: Unwrapper, s: string): FileState {
    FileState(Rest(s), PartsAfter(u, Complete(s)), Messages(u, Complete(s)))
  }

  lemma CutAt(s: string, data: string, i: nat)
    requires i < |data| && data[i] == '\n'
    ensures (s + data[..i] + "\n") + data[i+1..] == s + data
  {
    assert data == data[..i] + "\n" + data[i+1..];
  }

  lemma HandedIs(u: Unwrapper, s: string, t: string)
    requires '\n' !in t
    ensures Handed(u, StateOf(u, s), Rest(s) + t) == StateOf(u, s + t + "\n")
  {
    hide LineStep, Rest, Complete, Messages, PartsAfter;
    Finish(s, t);
    MessagesMore(u, Complete(s), Rest(s) + t);
  }

  /** While no line is too long, feeding a chunk to the state of some bytes gives that of all of them. */
  lemma {:induction false} FedIs(u: Unwrapper, s: string, data: string)
    requires Short(s + data)
    ensures Fed(u, StateOf(u, s), data) == StateOf(u, s + data)
    decreases |data|
  {
    hide Handed, Rest, Complete, Messages, PartsAfter, Short;
    var i := IndexOf(data, '\n');
    if i >= 0 {
      HandedIs(u, s, data[..i]);
      CutAt(s, data, i);
      FedIs(u, s + data[..i] + "\n", data[i+1..]);
    } else {
      Extend(s, data);
      ShortWhole(s + data);
    }
  }

  class TailFile {
    const u: Unwrapper
    var partial: string
    var cpart: Parts
    var mined: seq<Message>

    function State(): FileState
      reads this
    {
      FileState(partial, cpart, mined)
    }

    constructor (u: Unwrapper)
      ensures this.u == u && State() == StateOf(u, "")
    {
      this.u := u;
      partial, cpart, mined := "", Parts("", ""), [];
    }

    /** Mines one line. */
    method Line(b: string)
      modifies `cpart, `mined
      ensures (cpart, mined) == (LineStep(u, old(cpart), b).0, old(mined) + Known(LineStep(u, old(cpart), b).1))
    {
      var s := TrimCR(b);
      assert mined + [] == mined;
      if s == "" {
        return;
      }
      var env := Unwrap(u, s);
      if env.None? {
        mined := mined + [Message(Plain, s)];
        return;
      }
      var e := env.value;
      var text := e.text;
      assert Part(cpart, e.stderr) == "" ==> SetPart(cpart, e.stderr, "") == cpart && "" + e.text == e.text by {
        assert cpart == Parts(cpart.out, cpart.err);
      }
      if e.partial {
        cpart := SetPart(cpart, e.stderr, Part(cpart, e.stderr) + e.text);
        if |Part(cpart, e.stderr)| < MAX_LINE {
          return;
        }
      } else if |Part(cpart, e.stderr)| > 0 {
        cpart := SetPart(cpart, e.stderr, Part(cpart, e.stderr) + e.text);
      }
      if |Part(cpart, e.stderr)| > 0 {
        text := Part(cpart, e.stderr);
        cpart := SetPart(cpart, e.stderr, "");
      }
      text := TrimCR(text);
      if text != "" {
        mined := mined + [Message(SourceOf(e), text)];
      }
    }

    /** Takes in one chunk as read from the file. */
    method Feed(chunk: string)
      modifies this
      ensures State() == Fed(u, old(State()), chunk)
    {
      hide LineStep;
      var data := chunk;
      while true
        invariant Fed(u, State(), data) == Fed(u, old(State()), chunk)
        decreases |data|
      {
        var i := IndexOf(data, '\n');
        if i < 0 {
          partial := partial + data;
          if |partial| > MAX_LINE {
            Line(partial);
            partial := "";
          }
          break;
        }
        assert |partial| == 0 ==> partial + data[..i] == data[..i];
        if |partial| > 0 {
          partial := partial + data[..i];
          Line(partial);
          partial := "";
        } else {
          Line(data[..i]);
        }
        data := data[i+1..];
      }
    }
  }

  function Concat(chunks: seq<string>): string {
    if chunks == [] then "" else Concat(chunks[..|chunks|-1]) + chunks[|chunks|-1]
  }

  /** However reads cut the stream, the messages mined are those of its lines and the last unfinished
      line is kept, so long as no line is too long. */
  method ReadAll(u: Unwrapper, chunks: seq<string>) returns (tf: TailFile)
    requires Short(Concat(chunks))
    ensures tf.u == u && tf.State() == StateOf(u, Concat(chunks))
  {
    hide Short, StateOf, Fed;
    tf := new TailFile(u);
    for i := 0 to |chunks|
      invariant fresh(tf) && tf.u == u && tf.State() == StateOf(u, Concat(chunks[..i]))
    {
      ShortChunks(chunks, i + 1);
      assert chunks[..i+1][..i] == chunks[..i];
      tf.Feed(chunks[i]);
      FedIs(u, Concat(chunks[..i]), chunks[i]);
    }
    assert chunks[..|chunks|] == chunks;
  }

  lemma {:induction false} ShortChunks(chunks: seq<string>, n: nat)
    requires Short(Concat(chunks)) && n <= |chunks|
    ensures Short(Concat(chunks[..n]))
    decreases |chunks|
  {
    if n == |chunks| {
      assert chunks[..n] == chunks;
    } else {
      var before := chunks[..|chunks|-1];
      ShortPrefix(Concat(chunks), |Concat(before)|);
      assert Concat(chunks)[..|Concat(before)|] == Concat(before);
      assert before[..n] == chunks[..n];
      ShortChunks(before, n);
    }
  }

  /** Two ways to cut the same stream lead to the same state and messages. */
  lemma {:induction false} ChunksIrrelevant(u: Unwrapper, f: FileState, chunks: seq<string>)
    requires Short(Concat(chunks)) && f == StateOf(u, "")
    ensures FedAll(u, f, chunks) == StateOf(u, Concat(chunks))
    decreases |chunks|
  {
    hide Short, StateOf, Fed;
    if chunks != [] {
      var before := chunks[..|chunks|-1];
      ShortChunks(chunks, |before|);
      ChunksIrrelevant(u, f, before);
      FedIs(u, Concat(before), chunks[|chunks|-1]);
    }
  }

  function FedAll(u: Unwrapper, f: FileState, chunks: seq<string>): FileState {
    if chunks == [] then f else Fed(u, FedAll(u, f, chunks[..|chunks|-1]), chunks[|chunks|-1])
  }
}
