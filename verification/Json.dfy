/** JSON texts as concrete syntax trees: every tree renders to one text, white space included. What is
    between the quotes of a string is kept as written. */
module Json {
  import opened Options

  datatype Value =
    | Text(body: string)
    | Atom(chars: string)
    | Array(ws: string, items: Items)
    | Object(ws: string, members: Members)

  /** lead is the white space after the comma that separates the tail. */
  datatype Items = NoItems | Items(head: Value, after: string, lead: string, tail: Items)

  datatype Members =
    | NoMembers
    | Members(key: string, beforeColon: string, afterColon: string, value: Value, after: string, lead: string, tail: Members)

  /** Decodes the escapes between the quotes of a string; None if they are malformed. */
  datatype Decoder = Decoder(decode: string -> Option<string>)
  {
    function Decode(body: string): Option<string> {
      decode(body)
    }
  }

  const QUOTE: char := '"'
  const BACKSLASH: char := '\\'

  predicate IsSpace(c: char) {
    c == ' ' || c == '\t' || c == '\n' || c == '\r'
  }

  predicate Spaces(w: string) {
    forall i :: 0 <= i < |w| ==> IsSpace(w[i])
  }

  // --- rendering ------------------------------------------------------------------------------------

  function Quoted(body: string): string {
    [QUOTE] + body + [QUOTE]
  }

  /** A separator between white space. */
  function Gap(a: string, c: char, b: string): string {
    a + [c] + b
  }

  function Render(v: Value): string {
    match v
    case Text(body) => Quoted(body)
    case Atom(chars) => chars
    case Array(ws, items) => "[" + (ws + RenderItems(items)) + "]"
    case Object(ws, members) => "{" + (ws + RenderMembers(members)) + "}"
  }

  function RenderItems(l: Items): string {
    if l.NoItems? then "" else Render(l.head) + AfterItem(l)
  }

  /** What follows the first item: white space, and the other items after a comma. */
  function AfterItem(l: Items): string
    requires l.Items?
    decreases l, 0
  {
    if l.tail.NoItems? then l.after else Gap(l.after, ',', l.lead) + RenderItems(l.tail)
  }

  function RenderMembers(l: Members): string {
    if l.NoMembers? then ""
    else Quoted(l.key) + (Gap(l.beforeColon, ':', l.afterColon) + (Render(l.value) + AfterMember(l)))
  }

  /** What follows the first member. */
  function AfterMember(l: Members): string
    requires l.Members?
    decreases l, 0
  {
    if l.tail.NoMembers? then l.after else Gap(l.after, ',', l.lead) + RenderMembers(l.tail)
  }

  // --- well-formed texts ----------------------------------------------------------------------------

  /** A string body: no bare quote, and no backslash without a character after it. */
  predicate Closed(body: string) {
    body == "" || (body[0] != QUOTE && if body[0] == BACKSLASH then |body| >= 2 && Closed(body[2..]) else Closed(body[1..]))
  }

  /** A string whose escapes, if it has any, can be decoded. */
  predicate GoodString(d: Decoder, body: string) {
    Closed(body) && (BACKSLASH in body ==> d.Decode(body).Some?)
  }

  /** The characters that end a number or literal. */
  predicate IsDelimiter(c: char) {
    c == QUOTE || c == '{' || c == '}' || c == '[' || c == ']' || c == ',' || IsSpace(c)
  }

  predicate GoodAtom(chars: string) {
    chars != "" && forall i :: 0 <= i < |chars| ==> !IsDelimiter(chars[i])
  }

  predicate Good(d: Decoder, v: Value) {
    match v
    case Text(body) => GoodString(d, body)
    case Atom(chars) => GoodAtom(chars)
    case Array(ws, items) => Spaces(ws) && GoodItems(d, items)
    case Object(ws, members) => Spaces(ws) && GoodMembers(d, members)
  }

  predicate GoodItems(d: Decoder, l: Items) {
    match l
    case NoItems => true
    case Items(head, after, lead, tail) => Good(d, head) && Spaces(after) && Spaces(lead) && GoodItems(d, tail)
  }

  predicate GoodMembers(d: Decoder, l: Members) {
    match l
    case NoMembers => true
    case Members(key, beforeColon, afterColon, value, after, lead, tail) =>
      && GoodString(d, key) && Spaces(beforeColon) && Spaces(afterColon) && Good(d, value)
      && Spaces(after) && Spaces(lead) && GoodMembers(d, tail)
  }

  /** The string that a body stands for. */
  function Meaning(d: Decoder, body: string): string {
    if BACKSLASH in body && d.Decode(body).Some? then d.Decode(body).value else body
  }

  // --- what a document says ---------------------------------------------------------------------------

  /** One value of a document under its keys joined by dots: the meaning of a string, the text of
      anything else. */
  datatype Binding = Binding(path: string, text: string, object_: bool)

  function Join(prefix: Option<string>, key: string): string {
    if prefix.None? then key else prefix.value + "." + key
  }

  function TextOf(d: Decoder, v: Value): string {
    if v.Text? then Meaning(d, v.body) else Render(v)
  }

  /** All values of an object and of the objects in it, in document order. */
  function All(d: Decoder, l: Members, prefix: Option<string>): seq<Binding> {
    match l
    case NoMembers => []
    case Members(key, _, _, value, _, _, tail) =>
      var path := Join(prefix, Meaning(d, key));
      [Binding(path, TextOf(d, value), value.Object?)]
      + (if value.Object? then All(d, value.members, Some(path)) else [])
      + All(d, tail, prefix)
  }

  /** Does some wanted path lie below this one? */
  predicate Below(wanted: seq<string>, path: string) {
    exists k {:trigger wanted[k]} :: 0 <= k < |wanted| && path + "." <= wanted[k]
  }

  /** Does b give the value of this wanted path? Objects only count when nothing below them is wanted. */
  predicate Gives(b: Binding, wanted: seq<string>, path: string) {
    b.path == path && !(b.object_ && Below(wanted, path))
  }

  /** The value of a path after some more bindings: that of the last one that gives it. */
  function Latest(was: string, bs: seq<Binding>, wanted: seq<string>, path: string): string
    decreases bs
  {
    if bs == [] then was
    else Latest(if Gives(bs[0], wanted, path) then bs[0].text else was, bs[1..], wanted, path)
  }
}
