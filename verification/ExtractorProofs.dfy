/** On the text of a well-formed object, the extractor finds for every wanted path the last value of the
    document that has it. */
module ExtractorProofs {
  import opened Options
  import opened Json
  import opened Extractor

  // --- positions --------------------------------------------------------------------------------------

  /** t stands at position i of s. */
  predicate At(s: string, i: nat, t: string) {
    i + |t| <= |s| && s[i..i+|t|] == t
  }

  lemma AtIs(s: string, i: nat, t: string)
    requires At(s, i, t)
    ensures i + |t| <= |s| && s[i..i+|t|] == t
  {
  }

  lemma AtSplit(s: string, i: nat, a: string, b: string)
    ensures At(s, i, a + b) <==> At(s, i, a) && At(s, i + |a|, b)
  {
    if i + |a| + |b| <= |s| {
      assert s[i..i+|a + b|] == s[i..i+|a|] + s[i+|a|..i+|a|+|b|];
      if At(s, i, a + b) {
        assert (a + b)[..|a|] == a && (a + b)[|a|..] == b;
        assert s[i..i+|a|] == s[i..i+|a + b|][..|a|];
        assert s[i+|a|..i+|a|+|b|] == s[i..i+|a + b|][|a|..];
      }
    }
  }

  lemma AtFour(s: string, i: nat, a: string, b: string, c: string, e: string)
    requires At(s, i, a + (b + (c + e)))
    ensures At(s, i, a) && At(s, i + |a|, b) && At(s, i + |a| + |b|, c) && At(s, i + |a| + |b| + |c|, e)
    ensures i + |a| + |b| + |c| + |e| <= |s|
  {
    AtIs(s, i, a + (b + (c + e)));
    hide At;
    AtSplit(s, i, a, b + (c + e));
    AtSplit(s, i + |a|, b, c + e);
    AtSplit(s, i + |a| + |b|, c, e);
  }

  lemma AtChar(s: string, i: nat, t: string, k: nat)
    requires At(s, i, t) && k < |t|
    ensures s[i + k] == t[k]
  {
    assert s[i..i+|t|][k] == s[i + k];
  }

  lemma AtTail(s: string, i: nat, t: string, k: nat)
    requires At(s, i, t) && k <= |t|
    ensures At(s, i + k, t[k..])
  {
    assert t == t[..k] + t[k..];
    AtSplit(s, i, t[..k], t[k..]);
  }

  // --- white space and strings --------------------------------------------------------------------------

  lemma {:induction false} SpacesSkipped(s: string, i: nat, w: string)
    requires At(s, i, w) && Spaces(w)
    requires i + |w| == |s| || !IsSpace(s[i + |w|])
    ensures SkipSpaces(s, i) == i + |w|
    decreases |w|
  {
    if w != "" {
      AtChar(s, i, w, 0);
      AtTail(s, i, w, 1);
      SpacesSkipped(s, i + 1, w[1..]);
    }
  }

  /** What a string comes to when its closing quote is found at j. */
  function Ended(d: Decoder, s: string, i: nat, j: nat, escaped: bool): Scan
    requires i < j <= |s|
  {
    if !escaped then Scan(s[i+1..j], j + 1, true)
    else
      var v := d.Decode(s[i+1..j]);
      if v.None? then Scan("", j + 1, false) else Scan(v.value, j + 1, true)
  }

  /** One round of the string loop. */
  lemma StringStep(d: Decoder, s: string, i: nat, j: nat, escaped: bool)
    requires i < j < |s|
    ensures StringFrom(d, s, i, j, escaped) ==
      if s[j] == QUOTE then Ended(d, s, i, j, escaped)
      else if s[j] == BACKSLASH then StringFrom(d, s, i, j + 2, true)
      else StringFrom(d, s, i, j + 1, escaped)
  {
  }

  /** The characters from j to end close like a string body, and whether one of them is a backslash. */
  predicate ClosedAt(s: string, j: nat, end: nat)
    requires end <= |s|
    decreases |s| - j
  {
    if j >= end then j == end
    else s[j] != QUOTE && ClosedAt(s, if s[j] == BACKSLASH then j + 2 else j + 1, end)
  }

  predicate EscapedAt(s: string, j: nat, end: nat)
    requires end <= |s|
    decreases |s| - j
  {
    j < end && (s[j] == BACKSLASH || EscapedAt(s, j + 1, end))
  }

  lemma {:induction false} EscapedIs(s: string, j: nat, body: string)
    requires At(s, j, body)
    ensures EscapedAt(s, j, j + |body|) <==> BACKSLASH in body
    decreases |body|
  {
    AtIs(s, j, body);
    if body != "" {
      AtChar(s, j, body, 0);
      AtTail(s, j, body, 1);
      hide At;
      EscapedIs(s, j + 1, body[1..]);
      assert body == [body[0]] + body[1..];
    }
  }

  lemma {:induction false} ClosedIs(s: string, j: nat, body: string)
    requires At(s, j, body) && Closed(body)
    ensures ClosedAt(s, j, j + |body|)
    decreases |body|
  {
    AtIs(s, j, body);
    if body != "" {
      AtChar(s, j, body, 0);
      var k := if body[0] == BACKSLASH then 2 else 1;
      AtTail(s, j, body, k);
      hide At;
      ClosedIs(s, j + k, body[k..]);
    }
  }

  lemma {:induction false} StringScanned(d: Decoder, s: string, i: nat, j: nat, end: nat, escaped: bool)
    requires i < j && end < |s| && s[end] == QUOTE && ClosedAt(s, j, end)
    ensures j <= end && StringFrom(d, s, i, j, escaped) == Ended(d, s, i, end, escaped || EscapedAt(s, j, end))
    decreases |s| - j
  {
    if j < end {
      StringStep(d, s, i, j, escaped);
      StringScanned(d, s, i, if s[j] == BACKSLASH then j + 2 else j + 1, end, escaped || s[j] == BACKSLASH);
    } else {
      StringStep(d, s, i, end, escaped);
    }
  }

  /** A string of the text is scanned to its meaning. */
  lemma StringIs(d: Decoder, s: string, i: nat, body: string)
    requires At(s, i, Quoted(body)) && GoodString(d, body)
    ensures StringAt(d, s, i) == Scan(Meaning(d, body), i + |body| + 2, true) && s[i] == QUOTE
  {
    hide StringFrom, At, Closed;
    AtChar(s, i, Quoted(body), 0);
    AtSplit(s, i, [QUOTE] + body, [QUOTE]);
    AtSplit(s, i, [QUOTE], body);
    AtChar(s, i + 1 + |body|, [QUOTE], 0);
    AtIs(s, i + 1, body);
    AtIs(s, i + 1 + |body|, [QUOTE]);
    EscapedIs(s, i + 1, body);
    ClosedIs(s, i + 1, body);
    hide ClosedAt, EscapedAt;
    StringScanned(d, s, i, i + 1, i + 1 + |body|, false);
  }

  // --- skipping -----------------------------------------------------------------------------------------

  predicate IsPlain(c: char) {
    c != QUOTE && c != '{' && c != '}' && c != '[' && c != ']'
  }

  /** Inside brackets, characters that are neither quotes nor brackets are passed over. */
  lemma {:induction false} PlainSkipped(d: Decoder, s: string, i: nat, t: string, depth: nat)
    requires At(s, i, t) && depth > 0 && forall k :: 0 <= k < |t| ==> IsPlain(t[k])
    ensures SkipFrom(d, s, i, depth) == SkipFrom(d, s, i + |t|, depth)
    decreases |t|
  {
    if t != "" {
      AtChar(s, i, t, 0);
      AtTail(s, i, t, 1);
      PlainSkipped(d, s, i + 1, t[1..], depth);
    }
  }

  lemma SpacesPassed(d: Decoder, s: string, i: nat, w: string, depth: nat)
    requires At(s, i, w) && depth > 0 && Spaces(w)
    ensures SkipFrom(d, s, i, depth) == SkipFrom(d, s, i + |w|, depth)
  {
    PlainSkipped(d, s, i, w, depth);
  }

  /** A comma or colon between white space. */
  lemma GapSkipped(d: Decoder, s: string, i: nat, a: string, c: char, b: string, depth: nat)
    requires At(s, i, Gap(a, c, b)) && depth > 0 && Spaces(a) && Spaces(b) && IsPlain(c)
    ensures SkipFrom(d, s, i, depth) == SkipFrom(d, s, i + |Gap(a, c, b)|, depth)
  {
    PlainSkipped(d, s, i, Gap(a, c, b), depth);
  }

  lemma StringSkipped(d: Decoder, s: string, i: nat, body: string, depth: nat)
    requires At(s, i, Quoted(body)) && GoodString(d, body) && depth > 0
    ensures SkipFrom(d, s, i, depth) == SkipFrom(d, s, i + |Quoted(body)|, depth)
  {
    hide StringFrom, Closed;
    StringIs(d, s, i, body);
  }

  lemma AtomSkipped(d: Decoder, s: string, i: nat, chars: string, depth: nat)
    requires At(s, i, chars) && GoodAtom(chars) && depth > 0
    ensures SkipFrom(d, s, i, depth) == SkipFrom(d, s, i + |chars|, depth)
  {
    PlainSkipped(d, s, i, chars, depth);
  }

  /** Inside brackets a whole value is passed over. */
  lemma {:induction false} ValueSkipped(d: Decoder, s: string, i: nat, v: Value, depth: nat)
    requires At(s, i, Render(v)) && Good(d, v) && depth > 0
    ensures SkipFrom(d, s, i, depth) == SkipFrom(d, s, i + |Render(v)|, depth)
    decreases v
  {
    hide SkipFrom, At, Spaces, GoodString, GoodAtom;
    match v
    case Text(body) =>
      StringSkipped(d, s, i, body, depth);
    case Atom(chars) =>
      AtomSkipped(d, s, i, chars, depth);
    case Array(ws, items) =>
      BracketsSkipped(d, s, i, '[', ws + RenderItems(items), ']', depth);
      AtSplit(s, i + 1, ws, RenderItems(items));
      SpacesPassed(d, s, i + 1, ws, depth + 1);
      ItemsSkipped(d, s, i + 1 + |ws|, items, depth + 1);
    case Object(ws, members) =>
      BracketsSkipped(d, s, i, '{', ws + RenderMembers(members), '}', depth);
      AtSplit(s, i + 1, ws, RenderMembers(members));
      SpacesPassed(d, s, i + 1, ws, depth + 1);
      MembersSkipped(d, s, i + 1 + |ws|, members, depth + 1);
  }

  /** The brackets around t raise the depth and lower it again. */
  lemma BracketsSkipped(d: Decoder, s: string, i: nat, open: char, t: string, close: char, depth: nat)
    requires At(s, i, [open] + t + [close]) && (open == '[' || open == '{') && (close == ']' || close == '}')
    ensures At(s, i + 1, t) && i + 1 + |t| < |s|
    ensures SkipFrom(d, s, i, depth) == SkipFrom(d, s, i + 1, depth + 1)
    ensures depth > 0 ==> SkipFrom(d, s, i + 1 + |t|, depth + 1) == SkipFrom(d, s, i + |t| + 2, depth)
    ensures SkipFrom(d, s, i + 1 + |t|, 1) == (i + |t| + 2, true)
  {
    AtSplit(s, i, [open] + t, [close]);
    AtSplit(s, i, [open], t);
    AtChar(s, i, [open], 0);
    AtChar(s, i + 1 + |t|, [close], 0);
  }

  lemma ItemsParts(d: Decoder, l: Items)
    requires GoodItems(d, l)
    ensures l.NoItems? ==> RenderItems(l) == ""
    ensures l.Items? ==> Good(d, l.head) && Spaces(l.after) && Spaces(l.lead) && GoodItems(d, l.tail)
    ensures l.Items? ==> RenderItems(l) == Render(l.head) + AfterItem(l)
    ensures l.Items? ==> AfterItem(l) == if l.tail.NoItems? then l.after else Gap(l.after, ',', l.lead) + RenderItems(l.tail)
  {
  }

  lemma MembersParts(d: Decoder, l: Members)
    requires GoodMembers(d, l)
    ensures l.NoMembers? ==> RenderMembers(l) == ""
    ensures l.Members? ==> GoodString(d, l.key) && Spaces(l.beforeColon) && Spaces(l.afterColon) && Good(d, l.value)
    ensures l.Members? ==> Spaces(l.after) && Spaces(l.lead) && GoodMembers(d, l.tail)
    ensures l.Members? ==> RenderMembers(l) == Quoted(l.key) + (Gap(l.beforeColon, ':', l.afterColon) + (Render(l.value) + AfterMember(l)))
    ensures l.Members? ==> AfterMember(l) == if l.tail.NoMembers? then l.after else Gap(l.after, ',', l.lead) + RenderMembers(l.tail)
  {
  }

  lemma {:induction false} ItemsSkipped(d: Decoder, s: string, i: nat, l: Items, depth: nat)
    requires At(s, i, RenderItems(l)) && GoodItems(d, l) && depth > 0
    ensures SkipFrom(d, s, i, depth) == SkipFrom(d, s, i + |RenderItems(l)|, depth)
    decreases l, 1
  {
    hide SkipFrom, At, Render, RenderItems, AfterItem, GoodItems, Good, Gap, Spaces;
    ItemsParts(d, l);
    if l.Items? {
      AtSplit(s, i, Render(l.head), AfterItem(l));
      ValueSkipped(d, s, i, l.head, depth);
      AfterItemSkipped(d, s, i + |Render(l.head)|, l, depth);
    }
  }

  lemma {:induction false} AfterItemSkipped(d: Decoder, s: string, i: nat, l: Items, depth: nat)
    requires l.Items? && At(s, i, AfterItem(l)) && GoodItems(d, l) && depth > 0
    ensures SkipFrom(d, s, i, depth) == SkipFrom(d, s, i + |AfterItem(l)|, depth)
    decreases l, 0
  {
    hide SkipFrom, At, RenderItems, AfterItem, Gap, Spaces, GoodItems, Good, Render;
    ItemsParts(d, l);
    if l.tail.NoItems? {
      SpacesPassed(d, s, i, l.after, depth);
    } else {
      var gap := Gap(l.after, ',', l.lead);
      AtSplit(s, i, gap, RenderItems(l.tail));
      GapSkipped(d, s, i, l.after, ',', l.lead, depth);
      ItemsSkipped(d, s, i + |gap|, l.tail, depth);
    }
  }

  lemma {:induction false} MembersSkipped(d: Decoder, s: string, i: nat, l: Members, depth: nat)
    requires At(s, i, RenderMembers(l)) && GoodMembers(d, l) && depth > 0
    ensures SkipFrom(d, s, i, depth) == SkipFrom(d, s, i + |RenderMembers(l)|, depth)
    decreases l, 1
  {
    hide SkipFrom, At, Render, RenderMembers, GoodString, Quoted, Gap, AfterMember, GoodMembers, Good, Spaces;
    MembersParts(d, l);
    if l.Members? {
      var key, colon, v := Quoted(l.key), Gap(l.beforeColon, ':', l.afterColon), Render(l.value);
      AtFour(s, i, key, colon, v, AfterMember(l));
      StringSkipped(d, s, i, l.key, depth);
      GapSkipped(d, s, i + |key|, l.beforeColon, ':', l.afterColon, depth);
      ValueSkipped(d, s, i + |key| + |colon|, l.value, depth);
      AfterMemberSkipped(d, s, i + |key| + |colon| + |v|, l, depth);
    }
  }

  lemma {:induction false} AfterMemberSkipped(d: Decoder, s: string, i: nat, l: Members, depth: nat)
    requires l.Members? && At(s, i, AfterMember(l)) && GoodMembers(d, l) && depth > 0
    ensures SkipFrom(d, s, i, depth) == SkipFrom(d, s, i + |AfterMember(l)|, depth)
    decreases l, 0
  {
    hide SkipFrom, At, RenderMembers, AfterMember, Gap, Spaces, GoodMembers, GoodString, Good, Render, Quoted;
    MembersParts(d, l);
    if l.tail.NoMembers? {
      SpacesPassed(d, s, i, l.after, depth);
    } else {
      var gap := Gap(l.after, ',', l.lead);
      AtSplit(s, i, gap, RenderMembers(l.tail));
      GapSkipped(d, s, i, l.after, ',', l.lead, depth);
      MembersSkipped(d, s, i + |gap|, l.tail, depth);
    }
  }

  /** What can come after a value inside an object. */
  predicate IsEnd(s: string, i: nat) {
    i == |s| || (i < |s| && (IsSpace(s[i]) || s[i] == ',' || s[i] == '}'))
  }

  lemma {:induction false} AtomEnds(d: Decoder, s: string, i: nat, chars: string)
    requires At(s, i, chars) && (forall k :: 0 <= k < |chars| ==> !IsDelimiter(chars[k])) && IsEnd(s, i + |chars|)
    ensures SkipFrom(d, s, i, 0) == (i + |chars|, true)
    decreases |chars|
  {
    if chars != "" {
      AtChar(s, i, chars, 0);
      AtTail(s, i, chars, 1);
      AtomEnds(d, s, i + 1, chars[1..]);
    }
  }

  /** Outside brackets a value that is not a string is skipped to its end. */
  lemma ValueEnds(d: Decoder, s: string, i: nat, v: Value)
    requires At(s, i, Render(v)) && Good(d, v) && !v.Text? && IsEnd(s, i + |Render(v)|)
    ensures SkipFrom(d, s, i, 0) == (i + |Render(v)|, true)
  {
    hide SkipFrom, At, Spaces, RenderItems, RenderMembers, IsEnd;
    match v
    case Atom(chars) =>
      AtomEnds(d, s, i, chars);
    case Array(ws, items) =>
      BracketsSkipped(d, s, i, '[', ws + RenderItems(items), ']', 0);
      AtSplit(s, i + 1, ws, RenderItems(items));
      SpacesPassed(d, s, i + 1, ws, 1);
      ItemsSkipped(d, s, i + 1 + |ws|, items, 1);
    case Object(ws, members) =>
      BracketsSkipped(d, s, i, '{', ws + RenderMembers(members), '}', 0);
      AtSplit(s, i + 1, ws, RenderMembers(members));
      SpacesPassed(d, s, i + 1, ws, 1);
      MembersSkipped(d, s, i + 1 + |ws|, members, 1);
  }

  // --- scanning an object -------------------------------------------------------------------------------

  /** What scanning comes to, on the tree: the values of objects with wanted paths below are looked into. */
  function FillValue(d: Decoder, wanted: seq<string>, v: Value, path: string, out: seq<string>): (r: seq<string>)
    requires |out| == |wanted|
    ensures |r| == |wanted|
    decreases v
  {
    if v.Object? && Below(wanted, path) then FillMembers(d, wanted, v.members, path, out)
    else SetAll(wanted, out, path, TextOf(d, v))
  }

  function FillMembers(d: Decoder, wanted: seq<string>, l: Members, base: string, out: seq<string>): (r: seq<string>)
    requires |out| == |wanted|
    ensures |r| == |wanted|
    decreases l
  {
    if l.NoMembers? then out
    else FillMembers(d, wanted, l.tail, base, FillValue(d, wanted, l.value, Extend(base, Meaning(d, l.key)), out))
  }

  lemma {:induction false} SpacesJump(s: string, i: nat, w: string)
    requires At(s, i, w) && Spaces(w)
    ensures SkipSpaces(s, i) == SkipSpaces(s, i + |w|)
    decreases |w|
  {
    if w != "" {
      AtChar(s, i, w, 0);
      AtTail(s, i, w, 1);
      SpacesJump(s, i + 1, w[1..]);
    }
  }

  lemma StepSpaces(d: Decoder, wanted: seq<string>, s: string, i: nat, w: string, base: string, out: seq<string>)
    requires At(s, i, w) && Spaces(w) && |out| == |wanted|
    ensures ScanMembers(d, wanted, s, i, base, out) == ScanMembers(d, wanted, s, i + |w|, base, out)
  {
    SpacesJump(s, i, w);
  }

  /** White space and a comma between members. */
  lemma StepGap(d: Decoder, wanted: seq<string>, s: string, i: nat, a: string, b: string, base: string, out: seq<string>)
    requires At(s, i, Gap(a, ',', b)) && Spaces(a) && Spaces(b) && |out| == |wanted|
    ensures ScanMembers(d, wanted, s, i, base, out) == ScanMembers(d, wanted, s, i + |Gap(a, ',', b)|, base, out)
  {
    hide At, Spaces, ScanMembers;
    AtSplit(s, i, a + [','], b);
    AtSplit(s, i, a, [',']);
    StepSpaces(d, wanted, s, i, a, base, out);
    StepComma(d, wanted, s, i + |a|, base, out);
    StepSpaces(d, wanted, s, i + |a| + 1, b, base, out);
  }

  lemma StepComma(d: Decoder, wanted: seq<string>, s: string, i: nat, base: string, out: seq<string>)
    requires At(s, i, [',']) && |out| == |wanted|
    ensures i + 1 <= |s| && ScanMembers(d, wanted, s, i, base, out) == ScanMembers(d, wanted, s, i + 1, base, out)
  {
    AtChar(s, i, [','], 0);
    ScanHead(d, wanted, s, i, base, out);
    hide ScanMembers, At;
    assert SkipSpaces(s, i) == i;
  }

  /** The first character of a value, which is not white space. */
  lemma FirstChar(d: Decoder, v: Value)
    requires Good(d, v)
    ensures Render(v) != "" && !IsSpace(Render(v)[0])
    ensures (Render(v)[0] == QUOTE <==> v.Text?) && (Render(v)[0] == '{' <==> v.Object?)
  {
    match v
    case Text(body) =>
    case Atom(chars) =>
    case Array(ws, items) =>
    case Object(ws, members) =>
  }

  /** White space around the colon after a key, up to a character that is not white space. */
  lemma ColonSkipped(s: string, i: nat, a: string, b: string)
    requires At(s, i, Gap(a, ':', b)) && Spaces(a) && Spaces(b)
    requires i + |Gap(a, ':', b)| < |s| && !IsSpace(s[i + |Gap(a, ':', b)|])
    ensures var j := SkipSpaces(s, i); j < |s| && s[j] == ':' && SkipSpaces(s, j + 1) == i + |Gap(a, ':', b)|
  {
    AtSplit(s, i, a + [':'], b);
    AtSplit(s, i, a, [':']);
    AtChar(s, i + |a|, [':'], 0);
    SpacesSkipped(s, i, a);
    SpacesSkipped(s, i + |a| + 1, b);
  }

  /** One round of the member loop at a key. */
  lemma StepKey(d: Decoder, wanted: seq<string>, s: string, i: nat, j: nat, k: nat, key: string, base: string, out: seq<string>)
    requires i < |s| && s[i] == QUOTE && |out| == |wanted|
    requires StringAt(d, s, i) == Scan(key, j, true) && j <= |s|
    requires var c := SkipSpaces(s, j); c < |s| && s[c] == ':' && SkipSpaces(s, c + 1) == k
    requires k < |s|
    ensures var r := ScanValue(d, wanted, s, k, Extend(base, key), out);
      ScanMembers(d, wanted, s, i, base, out) == if !r.ok then r else ScanMembers(d, wanted, s, r.next, base, r.out)
  {
    hide ScanValue, StringAt;
    assert SkipSpaces(s, i) == i;
  }

  lemma QuotedLength(body: string)
    ensures |Quoted(body)| == |body| + 2
  {
  }

  /** One member: key, colon and value. */
  lemma StepMember(d: Decoder, wanted: seq<string>, s: string, i: nat, key: string, a: string, b: string, base: string, out: seq<string>)
    requires At(s, i, Quoted(key)) && At(s, i + |Quoted(key)|, Gap(a, ':', b)) && GoodString(d, key) && Spaces(a) && Spaces(b)
    requires var k := i + |Quoted(key)| + |Gap(a, ':', b)|; k < |s| && !IsSpace(s[k])
    requires |out| == |wanted|
    ensures var k := i + |Quoted(key)| + |Gap(a, ':', b)|;
      var r := ScanValue(d, wanted, s, k, Extend(base, Meaning(d, key)), out);
      ScanMembers(d, wanted, s, i, base, out) == if !r.ok then r else ScanMembers(d, wanted, s, r.next, base, r.out)
  {
    hide ScanValue, ScanMembers, At, Gap, StringAt, Meaning, SkipSpaces, GoodString, Spaces, Quoted;
    AtIs(s, i, Quoted(key));
    QuotedLength(key);
    StringIs(d, s, i, key);
    ColonSkipped(s, i + |Quoted(key)|, a, b);
    StepKey(d, wanted, s, i, i + |Quoted(key)|, i + |Quoted(key)| + |Gap(a, ':', b)|, Meaning(d, key), base, out);
  }

  lemma ScanText(d: Decoder, wanted: seq<string>, s: string, i: nat, body: string, path: string, out: seq<string>)
    requires At(s, i, Quoted(body)) && GoodString(d, body) && |out| == |wanted|
    ensures i < |s| && ScanValue(d, wanted, s, i, path, out) == Found(i + |Quoted(body)|, true, SetAll(wanted, out, path, Meaning(d, body)))
  {
    AtIs(s, i, Quoted(body));
    hide At, StringAt, Meaning, GoodString, SetAll;
    StringIs(d, s, i, body);
  }

  lemma ScanRaw(d: Decoder, wanted: seq<string>, s: string, i: nat, v: Value, path: string, out: seq<string>)
    requires At(s, i, Render(v)) && Good(d, v) && IsEnd(s, i + |Render(v)|) && |out| == |wanted|
    requires !v.Text? && !(v.Object? && Below(wanted, path))
    ensures i < |s| && ScanValue(d, wanted, s, i, path, out) == Found(i + |Render(v)|, true, SetAll(wanted, out, path, Render(v)))
  {
    FirstChar(d, v);
    AtChar(s, i, Render(v), 0);
    AtIs(s, i, Render(v));
    hide At, Render, Good, SkipFrom, SetAll, IsEnd;
    ValueEnds(d, s, i, v);
  }

  lemma ScanOpen(d: Decoder, wanted: seq<string>, s: string, i: nat, path: string, out: seq<string>)
    requires i < |s| && s[i] == '{' && Below(wanted, path) && |out| == |wanted|
    ensures ScanValue(d, wanted, s, i, path, out) == ScanMembers(d, wanted, s, i + 1, path, out)
  {
    hide ScanMembers, Below;
  }

  lemma OpenParts(s: string, i: nat, ws: string, inner: string)
    requires At(s, i, "{" + (ws + inner) + "}")
    ensures i + 1 + |ws| <= |s| && s[i] == '{' && At(s, i + 1, ws) && At(s, i + 1 + |ws|, inner + "}")
  {
    assert "{" + (ws + inner) + "}" == "{" + (ws + (inner + "}"));
    AtSplit(s, i, "{", ws + (inner + "}"));
    AtSplit(s, i + 1, ws, inner + "}");
    AtChar(s, i, "{", 0);
    AtIs(s, i + 1, ws);
  }

  lemma ScanInto(d: Decoder, wanted: seq<string>, s: string, i: nat, ws: string, inner: string, path: string, out: seq<string>)
    requires At(s, i, "{" + (ws + inner) + "}") && Spaces(ws) && Below(wanted, path) && |out| == |wanted|
    ensures i + 1 + |ws| <= |s| && At(s, i + 1 + |ws|, inner + "}")
    ensures ScanValue(d, wanted, s, i, path, out) == ScanMembers(d, wanted, s, i + 1 + |ws|, path, out)
  {
    hide At, ScanMembers, ScanValue, Below, Spaces;
    OpenParts(s, i, ws, inner);
    ScanOpen(d, wanted, s, i, path, out);
    StepSpaces(d, wanted, s, i + 1, ws, path, out);
  }

  lemma {:induction false} ValueScanned(d: Decoder, wanted: seq<string>, s: string, i: nat, v: Value, path: string, out: seq<string>)
    requires At(s, i, Render(v)) && Good(d, v) && IsEnd(s, i + |Render(v)|) && |out| == |wanted|
    ensures i < |s|
    ensures ScanValue(d, wanted, s, i, path, out) == Found(i + |Render(v)|, true, FillValue(d, wanted, v, path, out))
    decreases v
  {
    hide At, ScanValue, ScanMembers, RenderMembers, IsEnd, Below, FillMembers;
    if v.Text? {
      ScanText(d, wanted, s, i, v.body, path, out);
    } else if v.Object? && Below(wanted, path) {
      ScanInto(d, wanted, s, i, v.ws, RenderMembers(v.members), path, out);
      MembersScanned(d, wanted, s, i + 1 + |v.ws|, v.members, path, out);
    } else {
      ScanRaw(d, wanted, s, i, v, path, out);
    }
  }

  lemma NothingScanned(d: Decoder, wanted: seq<string>, s: string, i: nat, base: string, out: seq<string>)
    requires At(s, i, "}") && |out| == |wanted|
    ensures ScanMembers(d, wanted, s, i, base, out) == Found(i + 1, true, out)
  {
    AtChar(s, i, "}", 0);
  }

  /** Scanning the members of a well-formed object finds its end and what its tree says. */
  lemma {:induction false} MembersScanned(d: Decoder, wanted: seq<string>, s: string, i: nat, l: Members, base: string, out: seq<string>)
    requires At(s, i, RenderMembers(l) + "}") && GoodMembers(d, l) && |out| == |wanted|
    ensures ScanMembers(d, wanted, s, i, base, out) == Found(i + |RenderMembers(l)| + 1, true, FillMembers(d, wanted, l, base, out))
    decreases l, 1
  {
    hide At, ScanMembers, FillMembers, RenderMembers, GoodMembers;
    if l.NoMembers? {
      MembersParts(d, l);
      assert "" + "}" == "}";
      FillNothing(d, wanted, base, out);
      NothingScanned(d, wanted, s, i, base, out);
    } else {
      MemberScanned(d, wanted, s, i, l, base, out);
    }
  }

  lemma {:induction false} MemberScanned(d: Decoder, wanted: seq<string>, s: string, i: nat, l: Members, base: string, out: seq<string>)
    requires l.Members? && At(s, i, RenderMembers(l) + "}") && GoodMembers(d, l) && |out| == |wanted|
    ensures ScanMembers(d, wanted, s, i, base, out) == Found(i + |RenderMembers(l)| + 1, true, FillMembers(d, wanted, l, base, out))
    decreases l, 0
  {
    hide At, ScanMembers, ScanValue, FillMembers, FillValue, RenderMembers, Render, Quoted, Gap, Meaning, Extend, IsEnd, AfterMember,
      GoodString, GoodMembers, Good, Spaces;
    var key, colon, v, more := Quoted(l.key), Gap(l.beforeColon, ':', l.afterColon), Render(l.value), AfterMember(l);
    var path := Extend(base, Meaning(d, l.key));
    var now := FillValue(d, wanted, l.value, path, out);
    FillStep(d, wanted, l, base, out);
    MembersParts(d, l);
    MemberShape(d, l);
    FirstChar(d, l.value);
    AtFour(s, i, key, colon, v, more + "}");
    var j := i + |key| + |colon|;
    AtChar(s, j, v, 0);
    StepMember(d, wanted, s, i, l.key, l.beforeColon, l.afterColon, base, out);
    AfterEnds(s, j + |v|, l);
    ValueScanned(d, wanted, s, j, l.value, path, out);
    AfterScanned(d, wanted, s, j + |v|, l, base, now);
  }

  lemma FillStep(d: Decoder, wanted: seq<string>, l: Members, base: string, out: seq<string>)
    requires l.Members? && |out| == |wanted|
    ensures FillMembers(d, wanted, l, base, out)
         == FillMembers(d, wanted, l.tail, base, FillValue(d, wanted, l.value, Extend(base, Meaning(d, l.key)), out))
  {
  }

  lemma FillNothing(d: Decoder, wanted: seq<string>, base: string, out: seq<string>)
    requires |out| == |wanted|
    ensures FillMembers(d, wanted, NoMembers, base, out) == out
  {
  }

  /** The text of members and their closing bracket, in parts. */
  lemma MemberShape(d: Decoder, l: Members)
    requires l.Members? && GoodMembers(d, l)
    ensures RenderMembers(l) + "}"
         == Quoted(l.key) + (Gap(l.beforeColon, ':', l.afterColon) + (Render(l.value) + (AfterMember(l) + "}")))
  {
    hide Quoted, Gap, Render, AfterMember, RenderMembers, GoodMembers;
    MembersParts(d, l);
    var a, b, c, e := Quoted(l.key), Gap(l.beforeColon, ':', l.afterColon), Render(l.value), AfterMember(l);
    assert (a + (b + (c + e))) + "}" == a + (b + (c + (e + "}")));
  }

  /** What follows a member: the end of the object, or the other members. */
  lemma {:induction false} AfterScanned(d: Decoder, wanted: seq<string>, s: string, i: nat, l: Members, base: string, out: seq<string>)
    requires l.Members? && At(s, i, AfterMember(l) + "}") && GoodMembers(d, l) && |out| == |wanted|
    ensures ScanMembers(d, wanted, s, i, base, out) == Found(i + |AfterMember(l)| + 1, true, FillMembers(d, wanted, l.tail, base, out))
    decreases l.tail, 2
  {
    hide At, ScanMembers, FillMembers, RenderMembers, Gap, Spaces, AfterMember, GoodMembers, GoodString, Good, Render, Quoted;
    MembersParts(d, l);
    AfterShape(d, l);
    if l.tail.NoMembers? {
      FillNothing(d, wanted, base, out);
      AtSplit(s, i, l.after, "}");
      StepSpaces(d, wanted, s, i, l.after, base, out);
      NothingScanned(d, wanted, s, i + |l.after|, base, out);
    } else {
      var gap := Gap(l.after, ',', l.lead);
      AtSplit(s, i, gap, RenderMembers(l.tail) + "}");
      StepGap(d, wanted, s, i, l.after, l.lead, base, out);
      MembersScanned(d, wanted, s, i + |gap|, l.tail, base, out);
    }
  }

  lemma AfterShape(d: Decoder, l: Members)
    requires l.Members? && GoodMembers(d, l)
    ensures l.tail.Members? ==> AfterMember(l) + "}" == Gap(l.after, ',', l.lead) + (RenderMembers(l.tail) + "}")
  {
    hide Gap, RenderMembers, AfterMember, GoodMembers;
    MembersParts(d, l);
    var a, b := Gap(l.after, ',', l.lead), RenderMembers(l.tail);
    assert (a + b) + "}" == a + (b + "}");
  }

  lemma AfterEnds(s: string, i: nat, l: Members)
    requires l.Members? && At(s, i, AfterMember(l) + "}") && Spaces(l.after)
    ensures IsEnd(s, i)
  {
    var t := AfterMember(l) + "}";
    AtChar(s, i, t, 0);
  }

  // --- what the tree says, against the document ---------------------------------------------------------

  /** Paths below p start with p and a dot. */
  lemma {:induction false} AllBelow(d: Decoder, l: Members, p: string)
    ensures forall i {:trigger All(d, l, Some(p))[i]} :: 0 <= i < |All(d, l, Some(p))| ==> p + "." <= All(d, l, Some(p))[i].path
    decreases l
  {
    if l.Members? {
      var path := Join(Some(p), Meaning(d, l.key));
      AllBelow(d, l.tail, p);
      if l.value.Object? {
        AllBelow(d, l.value.members, path);
        assert p + "." <= path + ".";
      }
      var own, inner, rest := [Binding(path, TextOf(d, l.value), l.value.Object?)],
          if l.value.Object? then All(d, l.value.members, Some(path)) else [], All(d, l.tail, Some(p));
      forall i | 0 <= i < |own + inner + rest| ensures p + "." <= (own + inner + rest)[i].path {
        assert (own + inner + rest)[i] == if i == 0 then own[0] else if i < 1 + |inner| then inner[i-1] else rest[i-1-|inner|];
      }
    }
  }

  lemma {:induction false} LatestSplit(was: string, a: seq<Binding>, b: seq<Binding>, wanted: seq<string>, path: string)
    ensures Latest(was, a + b, wanted, path) == Latest(Latest(was, a, wanted, path), b, wanted, path)
    decreases |a|
  {
    if a == [] {
      assert a + b == b;
    } else {
      assert (a + b)[1..] == a[1..] + b;
      LatestSplit(if Gives(a[0], wanted, path) then a[0].text else was, a[1..], b, wanted, path);
    }
  }

  lemma {:induction false} LatestOfNone(was: string, bs: seq<Binding>, wanted: seq<string>, path: string)
    requires forall i {:trigger bs[i]} :: 0 <= i < |bs| ==> bs[i].path != path
    ensures Latest(was, bs, wanted, path) == was
    decreases |bs|
  {
    if bs != [] {
      LatestOfNone(was, bs[1..], wanted, path);
    }
  }

  /** No wanted path starts with a dot. */
  predicate NoLeadingDot(wanted: seq<string>) {
    forall k :: 0 <= k < |wanted| ==> !("." <= wanted[k])
  }

  /** The prefix of the keys in an object that is scanned with this base. */
  function PrefixOf(base: string): Option<string> {
    if base == "" then None else Some(base)
  }

  /** Looking only into objects with wanted paths below finds the same as the whole document says. */
  lemma {:induction false} FillIs(d: Decoder, wanted: seq<string>, l: Members, base: string, out: seq<string>, k: nat)
    requires |out| == |wanted| && k < |wanted| && NoLeadingDot(wanted)
    ensures FillMembers(d, wanted, l, base, out)[k] == Latest(out[k], All(d, l, PrefixOf(base)), wanted, wanted[k])
    decreases l, 1
  {
    if l.Members? {
      var path := Extend(base, Meaning(d, l.key));
      var own := [Binding(path, TextOf(d, l.value), l.value.Object?)];
      var inner := if l.value.Object? then All(d, l.value.members, Some(path)) else [];
      var rest := All(d, l.tail, PrefixOf(base));
      assert All(d, l, PrefixOf(base)) == own + inner + rest;
      var now := FillValue(d, wanted, l.value, path, out);
      LatestSplit(out[k], own + inner, rest, wanted, wanted[k]);
      LatestSplit(out[k], own, inner, wanted, wanted[k]);
      FillValueIs(d, wanted, l.value, path, out, k);
      FillIs(d, wanted, l.tail, base, now, k);
    }
  }

  lemma {:induction false} FillValueIs(d: Decoder, wanted: seq<string>, v: Value, path: string, out: seq<string>, k: nat)
    requires |out| == |wanted| && k < |wanted| && NoLeadingDot(wanted)
    ensures var own := [Binding(path, TextOf(d, v), v.Object?)];
      var inner := if v.Object? then All(d, v.members, Some(path)) else [];
      FillValue(d, wanted, v, path, out)[k] == Latest(Latest(out[k], own, wanted, wanted[k]), inner, wanted, wanted[k])
    decreases v, 0
  {
    var own := [Binding(path, TextOf(d, v), v.Object?)];
    assert Latest(out[k], own, wanted, wanted[k]) == if Gives(own[0], wanted, wanted[k]) then own[0].text else out[k] by {
      assert own[1..] == [];
    }
    if v.Object? && Below(wanted, path) {
      var x :| 0 <= x < |wanted| && path + "." <= wanted[x];
      assert path != "" by {
        assert "" + "." == ".";
      }
      FillIs(d, wanted, v.members, path, out, k);
    } else if v.Object? {
      AllBelow(d, v.members, path);
      LatestOfNone(Latest(out[k], own, wanted, wanted[k]), All(d, v.members, Some(path)), wanted, wanted[k]);
    }
  }

  // --- the main result ------------------------------------------------------------------------------------

  lemma ObjectParts(line: string, lead: string, ws: string, inner: string, rest: string)
    requires line == lead + ("{" + (ws + inner) + "}") + rest
    ensures At(line, 0, lead) && At(line, |lead|, "{" + (ws + inner) + "}")
  {
    var text := "{" + (ws + inner) + "}";
    assert line[0..|lead|] == lead;
    assert line[|lead|..|lead|+|text|] == text;
  }

  /** For every well-formed object, with white space before and anything after it, and wanted paths that
      do not start with a dot, extraction succeeds and gives each wanted path the last value in document
      order whose keys joined by dots are that path: strings decoded, others as written, objects only
      when no wanted path lies below them; nothing if there is no such value. */
  lemma ExtractFinds(d: Decoder, wanted: seq<string>, lead: string, o: Value, rest: string)
    requires Spaces(lead) && o.Object? && Good(d, o) && NoLeadingDot(wanted)
    ensures var (vals, ok) := ExtractFrom(d, wanted, lead + Render(o) + rest);
      ok && |vals| == |wanted| && forall k :: 0 <= k < |wanted| ==> vals[k] == Latest("", All(d, o.members, None), wanted, wanted[k])
  {
    var line, inner := lead + Render(o) + rest, RenderMembers(o.members);
    var blank := Blank(|wanted|);
    ObjectParts(line, lead, o.ws, inner, rest);
    ScanWhole(d, wanted, line, lead, o.ws, o.members);
    hide ScanMembers, FillMembers, All, Latest, At;
    forall k | 0 <= k < |wanted|
      ensures FillMembers(d, wanted, o.members, "", blank)[k] == Latest("", All(d, o.members, None), wanted, wanted[k]) {
      FillIs(d, wanted, o.members, "", blank, k);
    }
  }

  lemma ScanWhole(d: Decoder, wanted: seq<string>, line: string, lead: string, ws: string, l: Members)
    requires At(line, 0, lead) && At(line, |lead|, "{" + (ws + RenderMembers(l)) + "}") && Spaces(lead) && Spaces(ws) && GoodMembers(d, l)
    ensures ExtractFrom(d, wanted, line) == (FillMembers(d, wanted, l, "", Blank(|wanted|)), true)
  {
    hide At, ScanMembers, FillMembers, RenderMembers, SkipSpaces, Spaces, GoodMembers, ExtractFrom;
    var blank := Blank(|wanted|);
    OpenParts(line, |lead|, ws, RenderMembers(l));
    SpacesSkipped(line, 0, lead);
    StepSpaces(d, wanted, line, |lead| + 1, ws, "", blank);
    MembersScanned(d, wanted, line, |lead| + 1 + |ws|, l, "", blank);
    ExtractAt(d, wanted, line, |lead|);
  }

  lemma ExtractAt(d: Decoder, wanted: seq<string>, line: string, i: nat)
    requires SkipSpaces(line, 0) == i < |line| && line[i] == '{'
    ensures var r := ScanMembers(d, wanted, line, i + 1, "", Blank(|wanted|)); ExtractFrom(d, wanted, line) == (r.out, r.ok)
  {
    hide ScanMembers, SkipSpaces;
  }

  lemma WholeLine(d: Decoder, wanted: seq<string>, o: Value)
    requires o.Object? && Good(d, o)
    ensures ExtractFrom(d, wanted, Render(o)) == (FillMembers(d, wanted, o.members, "", Blank(|wanted|)), true)
  {
    assert Render(o) == "" + Render(o) + "";
    ObjectParts(Render(o), "", o.ws, RenderMembers(o.members), "");
    ScanWhole(d, wanted, Render(o), "", o.ws, o.members);
  }

  /** The document that has the value 1 under an empty key and then the key body. */
  function UnderEmptyKey(body: string): Value {
    Object("", Members("", "", "", Object("", Members(body, "", "", Atom("1"), "", "", NoMembers)), "", "", NoMembers))
  }

  lemma UnderEmptyKeyGood(d: Decoder, body: string)
    requires GoodString(d, body)
    ensures Good(d, UnderEmptyKey(body))
  {
    var inner := Members(body, "", "", Atom("1"), "", "", NoMembers);
    assert GoodMembers(d, NoMembers) && GoodString(d, "") && Spaces("") && Good(d, Atom("1"));
    assert GoodMembers(d, inner) && Good(d, Object("", inner));
  }

  lemma EmptyMeaning(d: Decoder)
    ensures Meaning(d, "") == ""
  {
  }

  /** What the document says of the path, a dot and the meaning of the key, whatever else is wanted. */
  lemma UnderEmptyKeySays(d: Decoder, body: string, wanted: seq<string>)
    ensures var path := "." + Meaning(d, body); Latest("", All(d, UnderEmptyKey(body).members, None), wanted, path) == "1"
  {
    hide Meaning, Below;
    var path, o := "." + Meaning(d, body), UnderEmptyKey(body);
    var inner := o.members.value.members;
    EmptyMeaning(d);
    assert Join(Some(""), Meaning(d, body)) == path && TextOf(d, Atom("1")) == "1";
    var b0, b1 := Binding("", Render(o.members.value), true), Binding(path, "1", false);
    assert All(d, inner, Some("")) == [b1] + [] + [] == [b1];
    assert All(d, o.members, None) == [b0] + [b1] + [] == [b0, b1];
    assert [b0, b1][1..] == [b1] && [b1][1..] == [];
    assert Latest("1", [], wanted, path) == "1" && Latest("", [b1], wanted, path) == "1";
  }

  /** The scanner looks into the empty key for the path, and finds the inner key without the dot. */
  lemma UnderEmptyKeyFills(d: Decoder, body: string, wanted: seq<string>, k: nat)
    requires k < |wanted| && wanted[k] == "." + Meaning(d, body)
    ensures FillMembers(d, wanted, UnderEmptyKey(body).members, "", Blank(|wanted|))[k] == ""
  {
    hide Meaning;
    var o, p, out := UnderEmptyKey(body), "", Blank(|wanted|);
    var inner := o.members.value.members;
    EmptyMeaning(d);
    assert p + "." == "." && Below(wanted, p) by {
      assert p + "." <= wanted[k];
    }
    assert Extend("", Meaning(d, body)) != wanted[k];
    assert FillMembers(d, wanted, inner, "", out)[k] == "";
  }

  /** No wanted path that starts with a dot is found where the document says it is, whatever else is wanted: a
      key below an empty key loses its dot. So it is for every key, spelled with escapes or without. */
  lemma LeadingDotIsLost(d: Decoder, body: string, wanted: seq<string>, k: nat)
    requires GoodString(d, body) && k < |wanted| && wanted[k] == "." + Meaning(d, body)
    ensures var o := UnderEmptyKey(body);
      var (vals, ok) := ExtractFrom(d, wanted, Render(o));
      && Good(d, o) && ok && |vals| == |wanted| && vals[k] == ""
      && Latest("", All(d, o.members, None), wanted, wanted[k]) == "1"
  {
    hide Meaning, FillMembers, Latest, All, ExtractFrom, Render;
    UnderEmptyKeyGood(d, body);
    UnderEmptyKeySays(d, body, wanted);
    UnderEmptyKeyFills(d, body, wanted, k);
    WholeLine(d, wanted, UnderEmptyKey(body));
  }
}
