/** The configuration reader of src/config/cfgfile.c and the precedence of its sources. */
module Config {
  import opened Prelude
  import opened StringMap

  const MAX_CONFIG_LINE := 2048

  const DIRECTIVES: seq<string> := [
    "interface", "dns-resolution", "port-resolution", "filter-code", "show-bars", "promiscuous",
    "hide-source", "hide-destination", "use-bytes", "sort", "line-display", "show-totals", "log-scale",
    "max-bandwidth", "net-filter", "net-filter6", "link-local", "port-display", "show-processes"]

  // ---- Reading lines ----

  /** Length of the piece that `fgets` with a buffer of `n` bytes takes: up to and including a newline, at
      most `n - 1` characters. */
  function Piece(text: string, n: nat): (k: nat)
    requires text != [] && n >= 2
    ensures 0 < k <= |text| && k < n
    decreases n
  {
    if text[0] == '\n' || |text| == 1 || n == 2 then 1 else 1 + Piece(text[1..], n - 1)
  }

  /** `fgets` stops right behind a newline, at the end of the text or when the buffer is full, and not
      before. */
  lemma {:induction false} PieceIsFgets(text: string, n: nat)
    requires text != [] && n >= 2
    ensures var k := Piece(text, n);
            '\n' !in text[..k - 1] && (text[k - 1] == '\n' || k == |text| || k == n - 1)
    decreases n
  {
    if text[0] == '\n' || |text| == 1 || n == 2 {
    } else {
      var k := Piece(text[1..], n - 1);
      PieceIsFgets(text[1..], n - 1);
      assert text[..k] == [text[0]] + text[1..][..k - 1] && text[k] == text[1..][k - 1];
    }
  }

  /** Drops trailing newlines, but never the first character. */
  function StripNewlines(line: string): (r: string)
    requires line != []
    ensures r != [] && |r| <= |line|
  {
    if |line| > 1 && line[|line| - 1] == '\n' then StripNewlines(line[..|line| - 1]) else line
  }

  datatype Logical = Logical(line: string, rest: string)

  /** Continuation lines: while the line ends in a backslash, the next piece overwrites the backslash.
      A full buffer has room for the terminator only and just loses the backslash. */
  function Continued(line: string, rest: string): (r: Logical)
    requires 0 < |line| < MAX_CONFIG_LINE
    ensures |r.rest| <= |rest|
    decreases |rest|, |line|
  {
    if line[|line| - 1] != '\\' then Logical(line, rest)
    else
      var room := MAX_CONFIG_LINE - |line|;
      var kept := line[..|line| - 1];
      if room == 1 then Continued(StripNewlines(kept), rest)
      else if rest == [] then Logical(line, rest)
      else
        var k := Piece(rest, room);
        Continued(StripNewlines(kept + rest[..k]), rest[k..])
  }

  function NextLine(text: string): (r: Logical)
    requires text != []
    ensures |r.rest| < |text|
  {
    var k := Piece(text, MAX_CONFIG_LINE);
    Continued(StripNewlines(text[..k]), text[k..])
  }

  // ---- Parsing a line ----

  predicate IsBlank(c: char) {
    c == ' ' || c == '\t'
  }

  /** The prefix before a comment. */
  function CutComment(s: string): string {
    if s == [] || s[0] == '#' || s[0] == '\n' then [] else [s[0]] + CutComment(s[1..])
  }

  function SkipBlanks(s: string): string {
    if s != [] && IsBlank(s[0]) then SkipBlanks(s[1..]) else s
  }

  function DropTrailingBlanks(s: string): string {
    if s != [] && IsBlank(s[|s| - 1]) then DropTrailingBlanks(s[..|s| - 1]) else s
  }

  /** The word at the start of a line: up to a blank or a colon. */
  function Word(s: string): string {
    if s == [] || IsBlank(s[0]) || s[0] == ':' then [] else [s[0]] + Word(s[1..])
  }

  /** What follows the first colon, if there is one. */
  function AfterColon(s: string): Option<string> {
    if s == [] then None else if s[0] == ':' then Some(s[1..]) else AfterColon(s[1..])
  }

  datatype Entry = Entry(key: string, value: string)

  function ParseLine(line: string): Option<Entry> {
    var s := CutComment(line);
    var key := Word(SkipBlanks(s));
    var value := AfterColon(s);
    if value.None? || key == [] then None
    else Some(Entry(key, DropTrailingBlanks(SkipBlanks(value.value))))
  }

  /** The entries of a file whose directive is known. */
  function Entries(text: string): seq<Entry>
    decreases |text|
  {
    if text == [] then []
    else
      var l := NextLine(text);
      var e := ParseLine(l.line);
      (if e.Some? && e.value.key in DIRECTIVES then [e.value] else []) + Entries(l.rest)
  }

  // ---- Precedence ----

  function LastSetting(args: seq<Entry>, d: string): Option<string> {
    if args == [] then None
    else if args[|args| - 1].key == d then Some(args[|args| - 1].value)
    else LastSetting(args[..|args| - 1], d)
  }

  function FirstEntry(es: seq<Entry>, d: string): Option<string> {
    if es == [] then None else if es[0].key == d then Some(es[0].value) else FirstEntry(es[1..], d)
  }

  /** The last command-line setting, else the first entry of the file, else nothing. */
  function Effective(args: seq<Entry>, text: string, d: string): Option<string> {
    if LastSetting(args, d).Some? then LastSetting(args, d) else FirstEntry(Entries(text), d)
  }

  function FirstOf(a: Option<string>, b: Option<string>): Option<string> {
    if a.Some? then a else b
  }

  class Settings {
    const tree: Tree

    constructor ()
      ensures fresh(tree) && tree.Valid() && tree.nodes == []
    {
      tree := new Tree();
    }

    /** `config_set_string`: overrides. */
    method SetString(d: string, v: string)
      requires tree.Valid()
      modifies tree
      ensures tree.Valid()
      ensures forall k :: Lookup(tree.nodes, k) == if k == d then Some(v) else old(Lookup(tree.nodes, k))
    {
      var i := tree.Find(d);
      if i == NULL {
        i := tree.Insert(d, v);
      } else {
        forall k
          ensures IsTree(SetData(tree.nodes, i, v))
          ensures Lookup(SetData(tree.nodes, i, v), k) == if k == d then Some(v) else Lookup(tree.nodes, k)
        {
          SetDataSets(tree.nodes, i, v, k);
        }
        tree.nodes := SetData(tree.nodes, i, v);
      }
    }

    /** `config_get_string` */
    method GetString(d: string) returns (v: Option<string>)
      requires tree.Valid()
      ensures v == Lookup(tree.nodes, d)
    {
      var i := tree.Find(d);
      v := if i == NULL then None else Some(tree.nodes[i].data);
    }

    /** The command line, setting by setting. */
    method ReadArgs(args: seq<Entry>)
      requires tree.Valid() && tree.nodes == []
      modifies tree
      ensures tree.Valid() && forall d :: Lookup(tree.nodes, d) == LastSetting(args, d)
    {
      var i := 0;
      while i < |args|
        invariant 0 <= i <= |args| && tree.Valid()
        invariant forall d :: Lookup(tree.nodes, d) == LastSetting(args[..i], d)
      {
        assert args[..i + 1][..i] == args[..i];
        SetString(args[i].key, args[i].value);
        i := i + 1;
      }
      assert args[..i] == args;
    }

    /** `read_config_file`: known directives are inserted, and the first setting stands. */
    method ReadFile(text: string)
      requires tree.Valid()
      modifies tree
      ensures tree.Valid()
      ensures forall d :: Lookup(tree.nodes, d) == FirstOf(old(Lookup(tree.nodes, d)), FirstEntry(Entries(text), d))
    {
      var rest := text;
      while rest != []
        invariant tree.Valid()
        invariant forall d :: FirstOf(Lookup(tree.nodes, d), FirstEntry(Entries(rest), d)) ==
                              FirstOf(old(Lookup(tree.nodes, d)), FirstEntry(Entries(text), d))
        decreases |rest|
      {
        var l := NextLine(rest);
        var e := ParseLine(l.line);
        if e.Some? && e.value.key in DIRECTIVES {
          assert Entries(rest)[0] == e.value && Entries(rest)[1..] == Entries(l.rest);
          var existing := tree.Insert(e.value.key, e.value.value);
        } else {
          assert Entries(rest) == Entries(l.rest);
        }
        rest := l.rest;
      }
    }

    /** Start-up: command line first, then the file.  Every directive gets its effective value. */
    method Configure(args: seq<Entry>, text: string)
      requires tree.Valid() && tree.nodes == []
      modifies tree
      ensures tree.Valid() && forall d :: Lookup(tree.nodes, d) == Effective(args, text, d)
    {
      ReadArgs(args);
      ReadFile(text);
    }
  }

  // ---- Writing a file and reading it back ----

  ghost predicate Clean(s: string) {
    '#' !in s && '\n' !in s
  }

  ghost predicate Blanks(s: string) {
    forall c | c in s :: IsBlank(c)
  }

  /** Neither end is a blank. */
  ghost predicate Trimmed(s: string) {
    s == [] || (!IsBlank(s[0]) && !IsBlank(s[|s| - 1]))
  }

  ghost predicate IsWord(s: string) {
    s != [] && Clean(s) && forall c | c in s :: !IsBlank(c) && c != ':'
  }

  lemma {:induction false} CutKeeps(s: string, c: string)
    requires Clean(s) && (c == [] || c[0] == '#')
    ensures CutComment(s + c) == s
  {
    if s == [] {
      assert s + c == c;
    } else {
      assert s[0] in s && forall x | x in s[1..] :: x in s;
      CutKeeps(s[1..], c);
      assert (s + c)[1..] == s[1..] + c;
    }
  }

  lemma {:induction false} SkipsTo(b: string, t: string)
    requires Blanks(b) && (t == [] || !IsBlank(t[0]))
    ensures SkipBlanks(b + t) == t
  {
    if b == [] {
      assert b + t == t;
    } else {
      assert b[0] in b && forall x | x in b[1..] :: x in b;
      SkipsTo(b[1..], t);
      assert (b + t)[1..] == b[1..] + t;
    }
  }

  lemma {:induction false} DropsTo(t: string, b: string)
    requires Blanks(b) && (t == [] || !IsBlank(t[|t| - 1]))
    ensures DropTrailingBlanks(t + b) == t
  {
    if b == [] {
      assert t + b == t;
    } else {
      assert b[|b| - 1] in b && forall x | x in b[..|b| - 1] :: x in b;
      DropsTo(t, b[..|b| - 1]);
      assert (t + b)[..|t + b| - 1] == t + b[..|b| - 1];
    }
  }

  lemma {:induction false} WordStops(w: string, t: string)
    requires forall c | c in w :: !IsBlank(c) && c != ':'
    requires t == [] || IsBlank(t[0]) || t[0] == ':'
    ensures Word(w + t) == w
  {
    if w == [] {
      assert w + t == t;
    } else {
      assert w[0] in w && forall x | x in w[1..] :: x in w;
      WordStops(w[1..], t);
      assert (w + t)[1..] == w[1..] + t;
    }
  }

  lemma {:induction false} ColonFound(u: string, t: string)
    requires ':' !in u
    ensures AfterColon(u + ":" + t) == Some(t)
  {
    if u == [] {
      assert (u + ":" + t)[1..] == t;
    } else {
      ColonFound(u[1..], t);
      assert (u + ":" + t)[1..] == u[1..] + ":" + t;
    }
  }

  lemma CleanLine(b1: string, key: string, b2: string, b3: string, value: string, b4: string)
    requires Blanks(b1) && Blanks(b2) && Blanks(b3) && Blanks(b4) && Clean(key) && Clean(value)
    ensures Clean(b1 + key + b2 + ":" + (b3 + value + b4))
  {
    assert Clean(b1) && Clean(b2) && Clean(b3) && Clean(b4);
  }

  lemma KeyFound(b1: string, key: string, tail: string)
    requires Blanks(b1) && IsWord(key) && (tail == [] || IsBlank(tail[0]) || tail[0] == ':')
    ensures Word(SkipBlanks(b1 + (key + tail))) == key
  {
    assert key[0] in key;
    SkipsTo(b1, key + tail);
    WordStops(key, tail);
  }

  lemma SkipValue(b3: string, value: string, b4: string)
    requires Blanks(b3) && Blanks(b4) && Trimmed(value)
    ensures DropTrailingBlanks(SkipBlanks(b3 + value + b4)) == value
  {
    if value == [] {
      assert b3 + value + b4 == (b3 + b4) + [];
      SkipsTo(b3 + b4, []);
      DropsTo([], []);
    } else {
      assert b3 + value + b4 == b3 + (value + b4);
      SkipsTo(b3, value + b4);
      DropsTo(value, b4);
    }
  }

  /** A directive line parses back to its parts, whatever the spacing and whatever comment follows. */
  lemma LineRoundTrip(b1: string, key: string, b2: string, b3: string, value: string, b4: string, comment: string)
    requires Blanks(b1) && Blanks(b2) && Blanks(b3) && Blanks(b4)
    requires IsWord(key) && Clean(value) && Trimmed(value) && (comment == [] || comment[0] == '#')
    ensures ParseLine(b1 + key + b2 + ":" + b3 + value + b4 + comment) == Some(Entry(key, value))
  {
    var left, right := b1 + key + b2, b3 + value + b4;
    var s := left + ":" + right;
    assert b1 + key + b2 + ":" + b3 + value + b4 + comment == s + comment;
    CleanLine(b1, key, b2, b3, value, b4);
    CutKeeps(s, comment);
    assert s == b1 + (key + (b2 + ":" + right));
    KeyFound(b1, key, b2 + ":" + right) by {
      assert b2 != [] ==> b2[0] in b2;
    }
    ColonFound(left, right) by {
      assert ':' !in left;
    }
    SkipValue(b3, value, b4);
  }

  /** An entry that fits on a line and does not end in a continuation. */
  ghost predicate Writable(e: Entry) {
    && e.key in DIRECTIVES && IsWord(e.key) && Clean(e.value) && Trimmed(e.value)
    && (e.value != [] ==> e.value[|e.value| - 1] != '\\')
    && |e.key| + 2 + |e.value| + 1 < MAX_CONFIG_LINE
  }

  function Written(e: Entry): string {
    e.key + ": " + e.value
  }

  function WrittenFile(es: seq<Entry>): string {
    if es == [] then [] else Written(es[0]) + "\n" + WrittenFile(es[1..])
  }

  lemma {:induction false} PieceIsLine(line: string, rest: string, n: nat)
    requires '\n' !in line && |line| + 1 < n
    ensures Piece(line + "\n" + rest, n) == |line| + 1
    decreases n
  {
    if line == [] {
    } else {
      PieceIsLine(line[1..], rest, n - 1);
      assert (line + "\n" + rest)[1..] == line[1..] + "\n" + rest;
    }
  }

  lemma NextLineIsLine(line: string, rest: string)
    requires line != [] && '\n' !in line && |line| + 1 < MAX_CONFIG_LINE && line[|line| - 1] != '\\'
    ensures NextLine(line + "\n" + rest) == Logical(line, rest)
  {
    var text := line + "\n" + rest;
    PieceIsLine(line, rest, MAX_CONFIG_LINE);
    assert text[..|line| + 1] == line + "\n" && text[|line| + 1..] == rest;
    assert (line + "\n")[..|line| + 1 - 1] == line;
    assert line[|line| - 1] in line;
    assert StripNewlines(line) == line;
  }

  lemma WrittenEnd(e: Entry)
    requires Writable(e)
    ensures Written(e) != [] && '\n' !in Written(e) && Written(e)[|Written(e)| - 1] != '\\'
  {
  }

  lemma WrittenLine(e: Entry)
    requires Writable(e)
    ensures ParseLine(Written(e)) == Some(e)
    ensures Written(e) != [] && '\n' !in Written(e) && Written(e)[|Written(e)| - 1] != '\\'
  {
    LineRoundTrip("", e.key, "", " ", e.value, "", "");
    assert "" + e.key + "" + ":" + " " + e.value + "" + "" == e.key + ": " + e.value;
    WrittenEnd(e);
  }

  lemma FirstOfFile(text: string, e: Entry, rest: string)
    requires text != [] && NextLine(text).rest == rest && ParseLine(NextLine(text).line) == Some(e)
    requires e.key in DIRECTIVES
    ensures Entries(text) == [e] + Entries(rest)
  {
  }

  lemma FirstWritten(e: Entry, rest: string)
    requires Writable(e)
    ensures Entries(Written(e) + "\n" + rest) == [e] + Entries(rest)
  {
    WrittenLine(e);
    NextLineIsLine(Written(e), rest);
    FirstOfFile(Written(e) + "\n" + rest, e, rest);
  }

  /** Reading back a written configuration file gives exactly the entries written, in order. */
  lemma {:induction false} FileRoundTrip(es: seq<Entry>)
    requires forall e | e in es :: Writable(e)
    ensures Entries(WrittenFile(es)) == es
  {
    if es == [] {
    } else {
      assert es[0] in es && forall e | e in es[1..] :: e in es;
      FileRoundTrip(es[1..]);
      FirstWritten(es[0], WrittenFile(es[1..]));
    }
  }

  // ---- Lines that set nothing ----

  lemma {:induction false} ColonMissing(s: string)
    ensures AfterColon(s).None? <==> ':' !in s
  {
    if s == [] {
    } else {
      ColonMissing(s[1..]);
      assert s == [s[0]] + s[1..];
    }
  }

  /** The blanks that are skipped. */
  lemma {:induction false} SkippedBlanks(s: string) returns (n: nat)
    ensures n <= |s| && Blanks(s[..n]) && SkipBlanks(s) == s[n..] && (n < |s| ==> !IsBlank(s[n]))
  {
    if s == [] || !IsBlank(s[0]) {
      n := 0;
    } else {
      var m := SkippedBlanks(s[1..]);
      n := m + 1;
      assert s[..n] == [s[0]] + s[1..][..m] && s[n..] == s[1..][m..];
    }
  }

  /** Nothing but blanks comes before the first colon. */
  ghost predicate NoKey(s: string) {
    exists n | 0 <= n < |s| :: Blanks(s[..n]) && s[n] == ':'
  }

  lemma KeyMissing(s: string)
    requires ':' in s
    ensures Word(SkipBlanks(s)) == [] <==> NoKey(s)
  {
    var n := SkippedBlanks(s);
    assert forall m | 0 <= m < n :: s[m] == s[..n][m] && s[..n][m] in s[..n];
    forall m | n < m < |s|
      ensures !Blanks(s[..m])
    {
      assert s[..m][n] == s[n] && s[..m][n] in s[..m];
    }
  }

  /** A line sets nothing exactly when it has no colon before its comment, or no key before the colon. */
  lemma NoEntryExactly(s: string, comment: string)
    requires Clean(s) && (comment == [] || comment[0] == '#')
    ensures ParseLine(s + comment).None? <==> ':' !in s || NoKey(s)
  {
    CutKeeps(s, comment);
    ColonMissing(s);
    if ':' in s {
      KeyMissing(s);
    }
  }

  // ---- Continuation lines ----

  function Joined(parts: seq<string>): string {
    if parts == [] then [] else parts[0] + Joined(parts[1..])
  }

  /** A line written over several, each but the last ending in a backslash. */
  function Folded(parts: seq<string>): string {
    if parts == [] then [] else if |parts| == 1 then parts[0] else parts[0] + "\\\n" + Folded(parts[1..])
  }

  /** No part has a newline, and the last one is not empty and does not ask for more. */
  ghost predicate Foldable(parts: seq<string>) {
    && parts != [] && (forall p | p in parts :: '\n' !in p)
    && var last := parts[|parts| - 1]; last != [] && last[|last| - 1] != '\\'
  }

  lemma StripOne(line: string)
    requires line != [] && '\n' !in line
    ensures StripNewlines(line + "\n") == line
  {
    assert (line + "\n")[..|line|] == line;
    assert line[|line| - 1] in line;
  }

  lemma FoldedText(a: string, b: string, rest: string)
    ensures (a + "\\\n" + b) + "\n" + rest == (a + "\\") + "\n" + (b + "\n" + rest)
  {
    assert "\\\n" == "\\" + "\n";
  }

  lemma FoldedFirst(parts: seq<string>, rest: string)
    requires |parts| > 1
    ensures Folded(parts) + "\n" + rest == (parts[0] + "\\") + "\n" + (Folded(parts[1..]) + "\n" + rest)
  {
    var more := Folded(parts[1..]);
    assert Folded(parts) == parts[0] + "\\\n" + more;
    FoldedText(parts[0], more, rest);
  }

  lemma FoldableRest(parts: seq<string>)
    requires Foldable(parts) && |parts| > 1
    ensures Foldable(parts[1..]) && '\n' !in parts[0] && Joined(parts) == parts[0] + Joined(parts[1..])
  {
    var more := parts[1..];
    assert parts[0] in parts;
    assert more[|more| - 1] == parts[|parts| - 1];
    forall p | p in more
      ensures '\n' !in p
    {
      assert p in parts;
    }
  }

  lemma FoldableLast(parts: seq<string>)
    requires Foldable(parts) && |parts| == 1
    ensures Folded(parts) == Joined(parts) == parts[0] && '\n' !in parts[0]
  {
    assert parts[0] in parts && parts[1..] == [];
    assert Joined(parts) == parts[0] + [];
  }

  lemma CutLine(line: string, rest: string)
    ensures (line + "\n" + rest)[..|line| + 1] == line + "\n" && (line + "\n" + rest)[|line| + 1..] == rest
  {
  }

  lemma Regroup(a: string, b: string, c: string)
    ensures a + (b + c) == (a + b) + c
  {
  }

  lemma DropBackslash(kept: string)
    ensures |kept + "\\"| == |kept| + 1 && (kept + "\\")[|kept|] == '\\' && (kept + "\\")[..|kept|] == kept
  {
  }

  /** One turn of the continuation loop. */
  lemma ContinuedOnce(kept: string, rest: string, k: nat)
    requires |kept| + 2 < MAX_CONFIG_LINE && rest != [] && k == Piece(rest, MAX_CONFIG_LINE - |kept| - 1)
    ensures Continued(kept + "\\", rest) == Continued(StripNewlines(kept + rest[..k]), rest[k..])
  {
    DropBackslash(kept);
  }

  /** What one more piece of a continued line gives. */
  lemma NextPiece(kept: string, line: string, rest: string)
    requires '\n' !in kept && '\n' !in line && line != [] && |kept| + |line| + 2 < MAX_CONFIG_LINE
    ensures Continued(kept + "\\", line + "\n" + rest) == Continued(kept + line, rest)
  {
    PieceIsLine(line, rest, MAX_CONFIG_LINE - |kept| - 1);
    ContinuedOnce(kept, line + "\n" + rest, |line| + 1);
    CutLine(line, rest);
    Regroup(kept, line, "\n");
    StripOne(kept + line);
  }

  /** After `kept` and a backslash, the text is read on as `r`; sealed. */
  ghost predicate ReadsOn(kept: string, text: string, r: Logical)
    requires |kept| + 1 < MAX_CONFIG_LINE
  {
    forall g | Opened(text, g) :: Continued(kept + "\\", text) == r
  }

  lemma NextFolded(kept: string, parts: seq<string>, rest: string, r: Logical)
    requires '\n' !in kept && Foldable(parts) && |parts| > 1 && |kept| + |parts[0]| + 3 < MAX_CONFIG_LINE
    requires ReadsOn(kept + parts[0], Folded(parts[1..]) + "\n" + rest, r)
    ensures ReadsOn(kept, Folded(parts) + "\n" + rest, r)
  {
    var more := Folded(parts[1..]) + "\n" + rest;
    assert Opened(more, 0);
    FoldableRest(parts);
    FoldedFirst(parts, rest);
    NextPiece(kept, parts[0] + "\\", more);
    assert kept + (parts[0] + "\\") == (kept + parts[0]) + "\\";
  }

  lemma NoMore(line: string, rest: string)
    requires 0 < |line| < MAX_CONFIG_LINE && line[|line| - 1] != '\\'
    ensures Continued(line, rest) == Logical(line, rest)
  {
  }

  lemma LastFolded(kept: string, parts: seq<string>, rest: string)
    requires '\n' !in kept && Foldable(parts) && |parts| == 1 && |kept| + |parts[0]| + 2 < MAX_CONFIG_LINE
    ensures ReadsOn(kept, Folded(parts) + "\n" + rest, Logical(kept + Joined(parts), rest))
  {
    FoldableLast(parts);
    NextPiece(kept, parts[0], rest);
    NoMore(kept + parts[0], rest);
  }

  lemma UnfoldOneMore(kept: string, parts: seq<string>, rest: string)
    requires '\n' !in kept && Foldable(parts) && |parts| > 1 && |kept| + |parts[0]| + 3 < MAX_CONFIG_LINE
    requires ReadsOn(kept + parts[0], Folded(parts[1..]) + "\n" + rest, Logical((kept + parts[0]) + Joined(parts[1..]), rest))
    ensures ReadsOn(kept, Folded(parts) + "\n" + rest, Logical(kept + Joined(parts), rest))
  {
    FoldableRest(parts);
    Regroup(kept, parts[0], Joined(parts[1..]));
    NextFolded(kept, parts, rest, Logical(kept + Joined(parts), rest));
  }

  lemma {:induction false} ContinuedUnfolds(kept: string, parts: seq<string>, rest: string)
    requires '\n' !in kept && Foldable(parts) && |kept| + |Joined(parts)| + 3 < MAX_CONFIG_LINE
    ensures ReadsOn(kept, Folded(parts) + "\n" + rest, Logical(kept + Joined(parts), rest))
    decreases |parts|
  {
    if |parts| == 1 {
      FoldableLast(parts);
      LastFolded(kept, parts, rest);
    } else {
      FoldableRest(parts);
      ContinuedUnfolds(kept + parts[0], parts[1..], rest);
      UnfoldOneMore(kept, parts, rest);
    }
  }

  lemma FirstPiece(line: string, rest: string)
    requires '\n' !in line && line != [] && |line| + 1 < MAX_CONFIG_LINE
    ensures NextLine(line + "\n" + rest) == Continued(line, rest)
  {
    var text := line + "\n" + rest;
    PieceIsLine(line, rest, MAX_CONFIG_LINE);
    assert text[..|line| + 1] == line + "\n" && text[|line| + 1..] == rest;
    StripOne(line);
  }

  /** A line folded in any way that fits the buffer is read as the line itself. */
  lemma NextLineUnfolds(parts: seq<string>, rest: string)
    requires Foldable(parts) && |Joined(parts)| + 3 < MAX_CONFIG_LINE
    ensures NextLine(Folded(parts) + "\n" + rest) == Logical(Joined(parts), rest)
  {
    if |parts| == 1 {
      FoldableLast(parts);
      NextLineIsLine(parts[0], rest);
    } else {
      FoldableRest(parts);
      FoldedFirst(parts, rest);
      var more := Folded(parts[1..]) + "\n" + rest;
      FirstPiece(parts[0] + "\\", more);
      ContinuedUnfolds(parts[0], parts[1..], rest);
      assert Opened(more, 0);
    }
  }

  /** What a line adds to the entries of a file: itself if it parses and its directive is known, else
      nothing. */
  lemma EntriesOfLine(parts: seq<string>, rest: string)
    requires Foldable(parts) && |Joined(parts)| + 3 < MAX_CONFIG_LINE
    ensures var e := ParseLine(Joined(parts));
            Entries(Folded(parts) + "\n" + rest) ==
            (if e.Some? && e.value.key in DIRECTIVES then [e.value] else []) + Entries(rest)
  {
    NextLineUnfolds(parts, rest);
  }

  /** An empty line adds nothing. */
  lemma EmptyLineAddsNothing(rest: string)
    ensures Entries("\n" + rest) == Entries(rest)
  {
    var text := "\n" + rest;
    assert text[..1] == "\n" && text[1..] == rest;
    assert StripNewlines("\n") == "\n" && NextLine(text) == Logical("\n", rest);
    assert CutComment("\n") == [];
  }

  /** The entry `e` written as a line in these parts, which fits the buffer. */
  ghost predicate FoldsTo(e: Entry, parts: seq<string>) {
    Writable(e) && Foldable(parts) && Joined(parts) == Written(e) && |Written(e)| + 3 < MAX_CONFIG_LINE
  }

  lemma FoldedEntry(e: Entry, parts: seq<string>, rest: string)
    requires FoldsTo(e, parts)
    ensures Entries(Folded(parts) + "\n" + rest) == [e] + Entries(rest)
  {
    WrittenLine(e);
    EntriesOfLine(parts, rest);
  }

  function FoldedFile(lines: seq<seq<string>>): string {
    if lines == [] then [] else Folded(lines[0]) + "\n" + FoldedFile(lines[1..])
  }

  /** A file reads back to its entries however its lines are folded. */
  lemma {:induction false} FoldedRoundTrip(es: seq<Entry>, lines: seq<seq<string>>)
    requires |es| == |lines| && forall i | 0 <= i < |es| :: FoldsTo(es[i], lines[i])
    ensures Entries(FoldedFile(lines)) == es
  {
    if es == [] {
    } else {
      var rest := FoldedFile(lines[1..]);
      FoldedRoundTrip(es[1..], lines[1..]);
      FoldedEntry(es[0], lines[0], rest);
      assert es == [es[0]] + es[1..];
    }
  }

  /** A backslash at the end of the file stays; one that fills the buffer is dropped, and the line ends. */
  lemma BackslashAtTheEnd(kept: string, rest: string)
    requires '\n' !in kept && kept != [] && |kept| + 1 < MAX_CONFIG_LINE
    ensures |kept| + 2 < MAX_CONFIG_LINE ==> Continued(kept + "\\", []) == Logical(kept + "\\", [])
    ensures |kept| == 2046 && kept[|kept| - 1] != '\\' ==> Continued(kept + "\\", rest) == Logical(kept, rest)
  {
    DropBackslash(kept);
    assert kept[|kept| - 1] in kept;
  }
}
