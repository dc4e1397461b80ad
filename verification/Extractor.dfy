/** The one-pass extractor of wanted values from a JSON line: what its scanning loops compute on any
    text, and what that is on the text of a well-formed object. */
module Extractor {
  import opened Options
  import opened Json

  /** A scanned string: its value, the position after it, and whether it is one. */
  datatype Scan = Scan(value: string, next: int, ok: bool)

  // --- what the loops compute -------------------------------------------------------------------------

  function SkipSpaces(s: string, i: nat): (j: nat)
    ensures i <= j && (i <= |s| ==> j <= |s|)
    decreases |s| - i
  {
    if i < |s| && IsSpace(s[i]) then SkipSpaces(s, i + 1) else i
  }

  /** The rest of the string that starts at i, from j on; escaped says whether a backslash was met. */
  function StringFrom(d: Decoder, s: string, i: nat, j: nat, escaped: bool): (r: Scan)
    requires i < j
    ensures r.ok ==> i < r.next <= |s|
    ensures !r.ok ==> 0 <= r.next <= |s|
    decreases |s| - j
  {
    if j >= |s| then Scan("", |s|, false)
    else if s[j] == BACKSLASH then StringFrom(d, s, i, j + 2, true)
    else if s[j] != QUOTE then StringFrom(d, s, i, j + 1, escaped)
    else if !escaped then Scan(s[i+1..j], j + 1, true)
    else
      var v := d.Decode(s[i+1..j]);
      if v.None? then Scan("", j + 1, false) else Scan(v.value, j + 1, true)
  }

  function StringAt(d: Decoder, s: string, i: nat): (r: Scan)
    requires i <= |s|
    ensures r.ok ==> i < r.next <= |s|
    ensures 0 <= r.next <= |s|
  {
    if i >= |s| || s[i] != QUOTE then Scan("", i, false) else StringFrom(d, s, i, i + 1, false)
  }

  /** Skips the rest of a value at i, inside so many brackets: the position after it and whether it ends. */
  function SkipFrom(d: Decoder, s: string, i: nat, depth: nat): (r: (nat, bool))
    requires i <= |s|
    ensures r.0 <= |s| && (r.1 ==> i <= r.0)
    decreases |s| - i
  {
    if i >= |s| then (i, depth == 0)
    else
      var c := s[i];
      if c == QUOTE then
        var r := StringAt(d, s, i);
        if !r.ok || depth == 0 then (r.next, r.ok) else SkipFrom(d, s, r.next, depth)
      else if c == '{' || c == '[' then SkipFrom(d, s, i + 1, depth + 1)
      else if c == '}' || c == ']' then
        if depth == 0 then (i, true) else if depth == 1 then (i + 1, true) else SkipFrom(d, s, i + 1, depth - 1)
      else if depth == 0 && (c == ',' || IsSpace(c)) then (i, true)
      else SkipFrom(d, s, i + 1, depth)
  }

  /** Sets the values of all wanted paths that are this one. */
  function SetAll(wanted: seq<string>, out: seq<string>, path: string, v: string): (r: seq<string>)
    requires |out| == |wanted|
    ensures |r| == |wanted| && forall k :: 0 <= k < |wanted| ==> r[k] == if wanted[k] == path then v else out[k]
  {
    seq(|wanted|, k requires 0 <= k < |wanted| => if wanted[k] == path then v else out[k])
  }

  /** Where scanning an object ended, whether it is one, and the values so far. */
  datatype Found = Found(next: int, ok: bool, out: seq<string>)

  /** A top-level key is a path, one below is joined to the path above by a dot. */
  function Extend(base: string, key: string): string {
    if base == "" then key else base + "." + key
  }

  /** Scans the members of an object whose keys go below base, from i on. */
  function ScanMembers(d: Decoder, wanted: seq<string>, s: string, i: nat, base: string, out: seq<string>): (r: Found)
    requires i <= |s| && |out| == |wanted|
    ensures 0 <= r.next <= |s| && |r.out| == |wanted| && (r.ok ==> i < r.next)
    decreases |s| - i
  {
    var i := SkipSpaces(s, i);
    if i >= |s| then Found(i, false, out)
    else if s[i] == '}' then Found(i + 1, true, out)
    else if s[i] == ',' then ScanMembers(d, wanted, s, i + 1, base, out)
    else
      var key := StringAt(d, s, i);
      if !key.ok then Found(key.next, false, out)
      else
        var i := SkipSpaces(s, key.next);
        if i >= |s| || s[i] != ':' then Found(i, false, out)
        else
          var i := SkipSpaces(s, i + 1);
          if i >= |s| then Found(i, false, out)
          else
            var path := Extend(base, key.value);
            var r := ScanValue(d, wanted, s, i, path, out);
            if !r.ok then r else ScanMembers(d, wanted, s, r.next, base, r.out)
  }

  /** Scans the value at i of the path given. */
  function ScanValue(d: Decoder, wanted: seq<string>, s: string, i: nat, path: string, out: seq<string>): (r: Found)
    requires i < |s| && |out| == |wanted|
    ensures 0 <= r.next <= |s| && |r.out| == |wanted| && (r.ok ==> i <= r.next)
    decreases |s| - i, 0
  {
    if s[i] == QUOTE then
      var v := StringAt(d, s, i);
      Found(v.next, v.ok, if v.ok then SetAll(wanted, out, path, v.value) else out)
    else if s[i] == '{' && Below(wanted, path) then ScanMembers(d, wanted, s, i + 1, path, out)
    else
      var j := SkipFrom(d, s, i, 0);
      Found(j.0, j.1, if j.1 then SetAll(wanted, out, path, s[i..j.0]) else out)
  }

  function Blank(n: nat): (r: seq<string>)
    ensures |r| == n && forall k :: 0 <= k < n ==> r[k] == ""
  {
    seq(n, _ => "")
  }

  /** One value per wanted path, and whether the line is an object. */
  function ExtractFrom(d: Decoder, wanted: seq<string>, line: string): (seq<string>, bool) {
    var i := SkipSpaces(line, 0);
    if i >= |line| || line[i] != '{' then (Blank(|wanted|), false)
    else var r := ScanMembers(d, wanted, line, i + 1, "", Blank(|wanted|)); (r.out, r.ok)
  }

  /** Skipping stops at the end or at something else. */
  lemma SpacesStop(s: string, i: nat)
    requires i <= |s|
    ensures var j := SkipSpaces(s, i); SkipSpaces(s, j) == j && (j < |s| ==> !IsSpace(s[j]))
    decreases |s| - i
  {
  }

  lemma {:induction false} SpacesBefore(s: string, i: nat)
    requires i <= |s|
    ensures forall k :: i <= k < SkipSpaces(s, i) ==> s[k] in " \t\n\r"
    decreases |s| - i
  {
    if i < |s| && IsSpace(s[i]) {
      SpacesBefore(s, i + 1);
    }
  }

  /** An object ends in a closing brace. */
  lemma {:induction false} ScanCloses(d: Decoder, wanted: seq<string>, s: string, i: nat, base: string, out: seq<string>)
    requires i <= |s| && |out| == |wanted|
    ensures var r := ScanMembers(d, wanted, s, i, base, out); r.ok ==> s[r.next-1] == '}'
    decreases |s| - i
  {
    hide StringAt, ScanValue;
    var a := SkipSpaces(s, i);
    if a < |s| && s[a] == ',' {
      ScanCloses(d, wanted, s, a + 1, base, out);
    } else if a < |s| && s[a] != '}' {
      var key := StringAt(d, s, a);
      if key.ok {
        var b := SkipSpaces(s, key.next);
        if b < |s| && s[b] == ':' {
          var e := SkipSpaces(s, b + 1);
          if e < |s| {
            var r := ScanValue(d, wanted, s, e, Extend(base, key.value), out);
            if r.ok {
              ScanCloses(d, wanted, s, r.next, base, r.out);
            }
          }
        }
      }
    }
  }

  /** A line that is taken for an object starts, after white space, with an opening brace, and has a closing one;
      of any other line no value is found. */
  lemma OnlyObjects(d: Decoder, wanted: seq<string>, line: string) returns (k: nat)
    ensures k <= |line| && forall j :: 0 <= j < k ==> line[j] in " \t\n\r"
    ensures k < |line| ==> line[k] !in " \t\n\r"
    ensures var (vals, ok) := ExtractFrom(d, wanted, line);
      && (ok ==> k < |line| && line[k] == '{' && '}' in line[k+1..])
      && (k < |line| && line[k] != '{' ==> !ok && forall j :: 0 <= j < |wanted| ==> |vals| == |wanted| && vals[j] == "")
  {
    hide ScanMembers;
    k := SkipSpaces(line, 0);
    SpacesStop(line, 0);
    SpacesBefore(line, 0);
    assert forall c: char :: c in " \t\n\r" ==> IsSpace(c);
    if k < |line| && line[k] == '{' {
      var r := ScanMembers(d, wanted, line, k + 1, "", Blank(|wanted|));
      ScanCloses(d, wanted, line, k + 1, "", Blank(|wanted|));
      if r.ok {
        assert line[k+1..][r.next-1-(k+1)] == '}';
      }
    }
  }

  /** One round of the member loop up to the next member. */
  lemma ScanHead(d: Decoder, wanted: seq<string>, s: string, i: nat, base: string, out: seq<string>)
    requires i <= |s| && |out| == |wanted|
    ensures var a := SkipSpaces(s, i);
      && (a < |s| ==> !IsSpace(s[a]))
      && ScanMembers(d, wanted, s, i, base, out)
      == if a >= |s| then Found(a, false, out)
         else if s[a] == '}' then Found(a + 1, true, out)
         else if s[a] == ',' then ScanMembers(d, wanted, s, a + 1, base, out)
         else ScanMembers(d, wanted, s, a, base, out)
  {
    SpacesStop(s, i);
  }

  // --- the loops ----------------------------------------------------------------------------------------

  class Extractor {
    const d: Decoder
    const paths: seq<string>
    var path: string
    var out: seq<string>

    constructor (d: Decoder, paths: seq<string>)
      ensures this.d == d && this.paths == paths
    {
      this.d, this.paths := d, paths;
      path, out := "", [];
    }

    /** One value per path, empty when absent; ok is false when line is not an object. On every text it
        terminates without reading past the end. */
    method Extract(line: string) returns (vals: seq<string>, ok: bool)
      modifies this
      ensures (vals, ok) == ExtractFrom(d, paths, line)
    {
      out, path := Blank(|paths|), "";
      var i := SkipWS(line, 0);
      if i >= |line| || line[i] != '{' {
        return out, false;
      }
      var _, done := Object(line, i);
      return out, done;
    }

    /** Parses the object at i, its keys going below the current path. */
    method Object(s: string, i: nat) returns (j: nat, ok: bool)
      requires i < |s| && |out| == |paths|
      modifies this
      ensures |out| == |paths| && (ok ==> path == old(path))
      ensures Found(j, ok, out) == ScanMembers(d, paths, s, i + 1, old(path), old(out))
      decreases |s| - i, 0
    {
      hide ScanMembers;
      j := i + 1;
      while true
        invariant i < j <= |s| && path == old(path) && |out| == |paths|
        invariant ScanMembers(d, paths, s, j, path, out) == ScanMembers(d, paths, s, i + 1, old(path), old(out))
        decreases |s| - j
      {
        ScanHead(d, paths, s, j, path, out);
        var a := SkipWS(s, j);
        if a >= |s| {
          return a, false;
        }
        if s[a] == '}' {
          return a + 1, true;
        }
        if s[a] == ',' {
          j := a + 1;
          continue;
        }
        j, ok := Member(s, a);
        if !ok {
          return;
        }
      }
    }

    /** Handles the member at i of the object whose keys go below the current path. */
    method Member(s: string, i: nat) returns (j: nat, ok: bool)
      requires i < |s| && !IsSpace(s[i]) && s[i] != '}' && s[i] != ',' && |out| == |paths|
      modifies this
      ensures |out| == |paths| && (ok ==> path == old(path) && i < j <= |s|)
      ensures ScanMembers(d, paths, s, i, old(path), old(out))
           == if ok then ScanMembers(d, paths, s, j, path, out) else Found(j, false, out)
      decreases |s| - i, 0
    {
      hide ScanValue, StringAt, Below;
      var key, b, good := Str(s, i);
      if !good {
        return b, false;
      }
      b := SkipWS(s, b);
      if b >= |s| || s[b] != ':' {
        return b, false;
      }
      b := SkipWS(s, b + 1);
      if b >= |s| {
        return b, false;
      }
      ghost var base := path;
      var n := |path|;
      if n > 0 {
        path := path + ".";
      }
      path := path + key;
      assert path == Extend(base, key);
      j, ok := ValueAt(s, b);
      if ok {
        path := path[..n];
      }
    }

    /** Handles the value at i of the current path. */
    method ValueAt(s: string, i: nat) returns (j: nat, ok: bool)
      requires i < |s| && |out| == |paths|
      modifies this
      ensures |out| == |paths| && (ok ==> path == old(path))
      ensures Found(j, ok, out) == ScanValue(d, paths, s, i, old(path), old(out))
      decreases |s| - i, 1
    {
      if s[i] == QUOTE {
        var v;
        v, j, ok := Str(s, i);
        if ok {
          Set(v);
        }
        return;
      }
      var below := Descend();
      if s[i] == '{' && below {
        j, ok := Object(s, i);
      } else {
        j, ok := SkipValue(s, i);
        if ok {
          Set(s[i..j]);
        }
      }
    }

    method Set(v: string)
      requires |out| == |paths|
      modifies `out
      ensures out == SetAll(paths, old(out), path, v)
    {
      for k := 0 to |paths|
        invariant |out| == |paths|
        invariant forall x :: 0 <= x < |paths| ==> out[x] == if x < k && paths[x] == path then v else old(out)[x]
      {
        if paths[k] == path {
          out := out[k := v];
        }
      }
    }

    /** Does some wanted path lie below the current one? */
    method Descend() returns (r: bool)
      ensures r == Below(paths, path)
    {
      for k := 0 to |paths|
        invariant forall x {:trigger paths[x]} :: 0 <= x < k ==> !(path + "." <= paths[x])
      {
        var p, n := paths[k], |path|;
        assert |p| > n && p[n] == '.' && p[..n] == path <==> path + "." <= p by {
          if |p| > n && p[n] == '.' && p[..n] == path {
            assert p[..n+1] == path + ".";
          }
          if path + "." <= p {
            assert p[..n+1] == path + ".";
            assert p[..n] == p[..n+1][..n];
          }
        }
        if |p| > n && p[n] == '.' && p[..n] == path {
          return true;
        }
      }
      return false;
    }

    method SkipWS(s: string, i: nat) returns (j: nat)
      requires i <= |s|
      ensures j == SkipSpaces(s, i)
    {
      j := i;
      while j < |s| && (s[j] == ' ' || s[j] == '\t' || s[j] == '\n' || s[j] == '\r')
        invariant i <= j <= |s| && SkipSpaces(s, j) == SkipSpaces(s, i)
      {
        j := j + 1;
      }
    }

    /** Parses the string at i; escaped strings are decoded. */
    method Str(s: string, i: nat) returns (v: string, j: nat, ok: bool)
      requires i <= |s|
      ensures Scan(v, j, ok) == StringAt(d, s, i)
    {
      if i >= |s| || s[i] != QUOTE {
        return "", i, false;
      }
      var esc := false;
      j := i + 1;
      while j < |s|
        invariant i < j && StringFrom(d, s, i, j, esc) == StringFrom(d, s, i, i + 1, false)
        decreases |s| - j
      {
        if s[j] == BACKSLASH {
          esc, j := true, j + 2;
        } else if s[j] == QUOTE {
          if !esc {
            return s[i+1..j], j + 1, true;
          }
          var u := d.Decode(s[i+1..j]);
          if u.None? {
            return "", j + 1, false;
          }
          return u.value, j + 1, true;
        } else {
          j := j + 1;
        }
      }
      return "", |s|, false;
    }

    /** Skips a number, literal, array or object. */
    method SkipValue(s: string, i: nat) returns (j: nat, ok: bool)
      requires i <= |s|
      ensures (j, ok) == SkipFrom(d, s, i, 0) && j <= |s| && (ok ==> i <= j)
    {
      var depth := 0;
      j := i;
      while j < |s|
        invariant i <= j <= |s| && depth >= 0 && SkipFrom(d, s, j, depth) == SkipFrom(d, s, i, 0)
        decreases |s| - j
      {
        var c := s[j];
        if c == QUOTE {
          var _, k, good := Str(s, j);
          if !good {
            return k, false;
          }
          j := k;
          if depth == 0 {
            return j, true;
          }
          continue;
        } else if c == '{' || c == '[' {
          depth := depth + 1;
        } else if c == '}' || c == ']' {
          if depth == 0 {
            return j, true;
          }
          depth := depth - 1;
          if depth == 0 {
            return j + 1, true;
          }
        } else if c == ',' || IsSpace(c) {
          if depth == 0 {
            return j, true;
          }
        }
        j := j + 1;
      }
      return j, depth == 0;
    }
  }
}
