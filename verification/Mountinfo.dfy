/** Reading /proc/<pid>/mountinfo (pkg/driver/graft.go), and the lines the kernel writes there
    (Linux Documentation/filesystems/proc.rst, section 3.5). */
module Mountinfo {
  import opened Strings
  import opened Keys

  /** One line, as far as the plugin reads it. */
  datatype Entry = Entry(dev: string, root: string, mountPoint: string, opts: string, fstype: string)

  // ---- Escapes ----

  predicate OctalDigit(c: char) { '0' <= c <= '7' }

  function Digit(c: char): nat requires OctalDigit(c) { (c as int) - ('0' as int) }

  /** strconv.ParseUint(s, 8, 8) of three characters. */
  function ParseOctal(s: string): Option<char>
    requires |s| == 3
  {
    if OctalDigit(s[0]) && OctalDigit(s[1]) && OctalDigit(s[2]) then
      var n := 64 * Digit(s[0]) + 8 * Digit(s[1]) + Digit(s[2]);
      if n < 256 then Some(n as char) else None
    else None
  }

  /** An escape at the start of s, read. */
  function EscapeAt(s: string): Option<char> {
    if |s| >= 4 && s[0] == '\\' then ParseOctal(s[1..4]) else None
  }

  function Unescape(s: string): string {
    if s == "" then ""
    else
      match EscapeAt(s)
      case Some(c) => [c] + Unescape(s[4..])
      case None => [s[0]] + Unescape(s[1..])
  }

  /** unescapeMount. */
  method UnescapeMount(s: string) returns (r: string)
    ensures r == Unescape(s)
  {
    if '\\' !in s {
      UnescapePlain(s);
      return s;
    }
    var b, i := "", 0;
    while i < |s|
      invariant i <= |s| && b + Unescape(s[i..]) == Unescape(s)
    {
      UnescapeAt(s, i);
      if s[i] == '\\' && i + 4 <= |s| {
        var n := ParseOctal(s[i + 1..i + 4]);
        if n.Some? {
          Associate(b, [n.value], Unescape(s[i + 4..]));
          b := b + [n.value];
          i := i + 4;
          continue;
        }
      }
      Associate(b, [s[i]], Unescape(s[i + 1..]));
      b := b + [s[i]];
      i := i + 1;
    }
    assert s[i..] == "";
    r := b;
  }

  /** Unescape at i, in terms of what the loop looks at. */
  lemma UnescapeAt(s: string, i: nat)
    requires i < |s|
    ensures Unescape(s[i..]) ==
            if s[i] == '\\' && i + 4 <= |s| && ParseOctal(s[i + 1..i + 4]).Some? then
              [ParseOctal(s[i + 1..i + 4]).value] + Unescape(s[i + 4..])
            else [s[i]] + Unescape(s[i + 1..])
  {
    assert s[i..][1..] == s[i + 1..];
    if i + 4 <= |s| {
      assert s[i..][1..4] == s[i + 1..i + 4] && s[i..][4..] == s[i + 4..];
    }
  }

  lemma {:induction false} UnescapePlain(s: string)
    requires '\\' !in s
    ensures Unescape(s) == s
  {
    if s != "" {
      UnescapePlain(s[1..]);
    }
  }

  /** How the kernel writes one byte of a path. */
  function EscapeChar(c: char): string {
    if c == ' ' then "\\040"
    else if c == '\t' then "\\011"
    else if c == '\n' then "\\012"
    else if c == '\\' then "\\134"
    else [c]
  }

  function Escape(s: string): string {
    if s == "" then "" else EscapeChar(s[0]) + Escape(s[1..])
  }

  lemma UnescapeStep(c: char, rest: string)
    ensures Unescape(EscapeChar(c) + rest) == [c] + Unescape(rest)
  {
    var s := EscapeChar(c) + rest;
    if |EscapeChar(c)| == 4 {
      assert s[1..4] == EscapeChar(c)[1..];
      assert s[4..] == rest;
      assert EscapeAt(s) == Some(c);
    } else {
      assert s[0] == c && s[1..] == rest;
    }
  }

  /** unescapeMount inverts the escaping, whatever the bytes. */
  lemma {:induction false} UnescapeInvertsEscape(s: string)
    ensures Unescape(Escape(s)) == s
  {
    if s != "" {
      UnescapeStep(s[0], Escape(s[1..]));
      UnescapeInvertsEscape(s[1..]);
    }
  }

  /** The three octal digits of a byte. */
  function Octal(c: char): string
    requires c as int < 256
  {
    var n := c as int;
    [('0' as int + n / 64) as char, ('0' as int + n / 8 % 8) as char, ('0' as int + n % 8) as char]
  }

  lemma OctalIsRead(c: char)
    requires c as int < 256
    ensures ParseOctal(Octal(c)) == Some(c)
  {}

  lemma OnlyOctalIsRead(d: string)
    requires |d| == 3 && ParseOctal(d).Some?
    ensures ParseOctal(d).value as int < 256 && d == Octal(ParseOctal(d).value)
  {}

  /** A backslash and the three octal digits of a byte stand for that byte, the kernel's four or any other. */
  lemma OctalStandsForByte(c: char, rest: string)
    requires c as int < 256
    ensures Unescape("\\" + Octal(c) + rest) == [c] + Unescape(rest)
  {
    var s := "\\" + Octal(c) + rest;
    OctalIsRead(c);
    assert s[1..4] == Octal(c) && s[4..] == rest;
  }

  /** A backslash before anything else, and every other byte, stands for itself. */
  lemma OthersStandForThemselves(s: string)
    requires s != "" && forall c: char | c as int < 256 :: !("\\" + Octal(c) <= s)
    ensures Unescape(s) == [s[0]] + Unescape(s[1..])
  {
    if EscapeAt(s).Some? {
      EscapeIsOctal(s);
    }
  }

  lemma EscapeIsOctal(s: string)
    requires EscapeAt(s).Some?
    ensures EscapeAt(s).value as int < 256 && "\\" + Octal(EscapeAt(s).value) <= s
  {
    OnlyOctalIsRead(s[1..4]);
    assert "\\" + Octal(EscapeAt(s).value) == s[..4];
  }

  // ---- Fields and lines ----

  /** The white space strings.Fields splits ASCII text on. */
  predicate IsSpace(c: char) {
    c == ' ' || c == '\t' || c == '\n' || c == 11 as char || c == 12 as char || c == '\r'
  }

  function FieldEnd(s: string): (n: nat)
    ensures n <= |s|
    ensures s != "" && !IsSpace(s[0]) ==> n > 0
  {
    if s == "" || IsSpace(s[0]) then 0 else 1 + FieldEnd(s[1..])
  }

  function Fields(s: string): seq<string>
    decreases |s|
  {
    if s == "" then []
    else if IsSpace(s[0]) then Fields(s[1..])
    else [s[..FieldEnd(s)]] + Fields(s[FieldEnd(s)..])
  }

  /** The first "-" at or after from; |f| if there is none. */
  function Dash(f: seq<string>, from: nat): (i: nat)
    ensures i <= |f| || i == from
    decreases |f| - from
  {
    if from >= |f| then |f| else if f[from] == "-" then from else Dash(f, from + 1)
  }

  function ParseLine(line: string): Option<Entry> {
    var f := Fields(line);
    var sep := Dash(f, 6);
    if sep + 1 >= |f| then None
    else Some(Entry(f[2], Unescape(f[3]), Unescape(f[4]), f[5], f[sep + 1]))
  }

  function ParseLines(lines: seq<string>): seq<Entry> {
    if lines == [] then []
    else
      var before, e := ParseLines(lines[..|lines| - 1]), ParseLine(lines[|lines| - 1]);
      if e.Some? then before + [e.value] else before
  }

  /** parseMountinfo. */
  method ParseMountinfo(text: string) returns (out: seq<Entry>)
    ensures out == ParseLines(Split(text, '\n'))
  {
    var lines := Split(text, '\n');
    out := [];
    for n := 0 to |lines|
      invariant out == ParseLines(lines[..n])
    {
      var f, sep := Fields(lines[n]), -1;
      var i := 6;
      while i < |f|
        invariant sep == -1 && Dash(f, 6) == Dash(f, i)
      {
        if f[i] == "-" {
          sep := i;
          break;
        }
        i := i + 1;
      }
      assert sep == if Dash(f, 6) < |f| then Dash(f, 6) else -1;
      assert lines[..n + 1][..n] == lines[..n];
      if sep < 0 || sep + 1 >= |f| {
        continue;
      }
      var root := UnescapeMount(f[3]);
      var mountPoint := UnescapeMount(f[4]);
      out := out + [Entry(f[2], root, mountPoint, f[5], f[sep + 1])];
    }
    assert lines[..|lines|] == lines;
  }

  // ---- What the kernel writes ----

  /** A mount as the kernel knows it: what the plugin reads of it, and the other columns. */
  datatype Record = Record(entry: Entry, id: string, parent: string, optional: seq<string>,
                           source: string, superOpts: string)

  function Columns(r: Record): seq<string> {
    [r.id, r.parent, r.entry.dev, Escape(r.entry.root), Escape(r.entry.mountPoint), r.entry.opts]
    + r.optional + ["-", r.entry.fstype, Escape(r.source), r.superOpts]
  }

  function Print(records: seq<Record>): string {
    if records == [] then ""
    else Print(records[..|records| - 1]) + Join(Columns(records[|records| - 1]), ' ') + "\n"
  }

  /** Neither empty nor split by white space. */
  predicate Plain(w: string) {
    w != "" && forall c | c in w :: !IsSpace(c)
  }

  /** Free of the white space the kernel does not escape but strings.Fields splits on. */
  predicate Escapable(s: string) {
    s != "" && forall c | c in s :: IsSpace(c) ==> c == ' ' || c == '\t' || c == '\n'
  }

  predicate Printable(r: Record) {
    && Plain(r.id) && Plain(r.parent) && Plain(r.entry.dev) && Plain(r.entry.opts) && Plain(r.entry.fstype)
    && Plain(r.superOpts) && Escapable(r.entry.root) && Escapable(r.entry.mountPoint) && Escapable(r.source)
    && forall o | o in r.optional :: Plain(o) && o != "-"
  }

  lemma {:induction false} EscapeIsPlain(s: string)
    requires forall c | c in s :: IsSpace(c) ==> c == ' ' || c == '\t' || c == '\n'
    ensures forall c | c in Escape(s) :: !IsSpace(c)
    ensures s != "" ==> Escape(s) != ""
  {
    if s != "" {
      EscapeIsPlain(s[1..]);
      assert s[0] in s;
    }
  }

  lemma {:induction false} FieldEndOfWord(w: string, tail: string)
    requires forall c | c in w :: !IsSpace(c)
    requires tail == "" || IsSpace(tail[0])
    ensures FieldEnd(w + tail) == |w|
  {
    if w == "" {
      assert w + tail == tail;
    } else {
      assert (w + tail)[1..] == w[1..] + tail;
      FieldEndOfWord(w[1..], tail);
    }
  }

  lemma FieldsOfWord(w: string, tail: string)
    requires Plain(w) && (tail == "" || IsSpace(tail[0]))
    ensures Fields(w + tail) == [w] + Fields(tail)
  {
    FieldEndOfWord(w, tail);
    assert (w + tail)[..|w|] == w && (w + tail)[|w|..] == tail;
    assert w[0] in w && (w + tail)[0] == w[0];
  }

  /** The fields are the words between white space: a space anywhere parts what is before it from what is
      after it, and a word is one field. */
  lemma {:induction false} FieldsArePartedBySpace(a: string, c: char, b: string)
    requires c in [' ', '\t', '\n', '\r', 11 as char, 12 as char]
    ensures Fields(a + [c] + b) == Fields(a) + Fields(b)
    decreases |a|
  {
    var all := a + [c] + b;
    if a == "" {
      assert all[1..] == b;
    } else if IsSpace(a[0]) {
      assert all[1..] == a[1..] + [c] + b;
      FieldsArePartedBySpace(a[1..], c, b);
    } else {
      var word, rest := FirstWord(a);
      FieldsArePartedBySpace(rest, c, b);
      assert all == word + (rest + [c] + b);
      FieldsOfWord(word, rest);
      FieldsOfWord(word, rest + [c] + b);
      Associate([word], Fields(rest), Fields(b));
    }
  }

  lemma {:induction false} FieldEndIs(s: string)
    ensures FieldEnd(s) < |s| ==> IsSpace(s[FieldEnd(s)])
    ensures forall i | 0 <= i < FieldEnd(s) :: !IsSpace(s[i])
  {
    if s != "" && !IsSpace(s[0]) {
      FieldEndIs(s[1..]);
    }
  }

  lemma FirstWord(a: string) returns (word: string, rest: string)
    requires a != "" && !IsSpace(a[0])
    ensures a == word + rest && Plain(word) && (rest == "" || IsSpace(rest[0])) && |rest| < |a|
  {
    var n := FieldEnd(a);
    FieldEndIs(a);
    word, rest := a[..n], a[n..];
    assert forall c | c in word :: !IsSpace(c);
  }

  lemma PlainIsOneField(w: string)
    requires w != "" && forall c | c in w :: c !in [' ', '\t', '\n', '\r', 11 as char, 12 as char]
    ensures Fields(w) == [w] && Fields("") == []
  {
    FieldsOfWord(w, "");
    assert w + "" == w;
  }

  /** A line is read when it has a separator after its first six fields, the first of which is not its last
      field: the type is what follows it. */
  lemma ParseLineIs(line: string, e: Entry)
    ensures ParseLine(line) == Some(e) <==> exists sep :: ReadFrom(line, sep, e)
  {
    if ParseLine(line) == Some(e) {
      SeparatedIfRead(line, e);
    }
    forall sep | ReadFrom(line, sep, e) ensures ParseLine(line) == Some(e) {
      ReadIfSeparated(line, sep, e);
    }
  }

  lemma ReadIfSeparated(line: string, sep: int, e: Entry)
    requires ReadFrom(line, sep, e)
    ensures ParseLine(line) == Some(e)
  {
    DashAfterOptional(Fields(line), 6, sep);
  }

  lemma SeparatedIfRead(line: string, e: Entry)
    requires ParseLine(line) == Some(e)
    ensures ReadFrom(line, Dash(Fields(line), 6), e)
  {
    DashIsFirst(Fields(line), 6);
  }

  predicate ReadFrom(line: string, sep: int, e: Entry) {
    var f := Fields(line);
    SeparatorAt(f, sep) && e == Entry(f[2], Unescape(f[3]), Unescape(f[4]), f[5], f[sep + 1])
  }

  predicate SeparatorAt(f: seq<string>, sep: int) {
    6 <= sep < |f| - 1 && f[sep] == "-" && forall i | 6 <= i < sep :: f[i] != "-"
  }

  lemma {:induction false} DashIsFirst(f: seq<string>, from: nat)
    ensures Dash(f, from) < |f| ==> from <= Dash(f, from) && f[Dash(f, from)] == "-"
    ensures forall i | from <= i < Dash(f, from) && i < |f| :: f[i] != "-"
    decreases |f| - from
  {
    if from < |f| && f[from] != "-" {
      DashIsFirst(f, from + 1);
    }
  }

  /** The entries are those of the lines that are read, and of no others. */
  lemma {:induction false} EntriesAreOfLines(lines: seq<string>, e: Entry)
    ensures e in ParseLines(lines) <==> exists l :: l in lines && ParseLine(l) == Some(e)
  {
    if lines != [] {
      EntriesAreOfLines(lines[..|lines| - 1], e);
      assert lines == lines[..|lines| - 1] + [lines[|lines| - 1]];
    }
  }

  lemma {:induction false} FieldsInvertsJoin(words: seq<string>)
    requires forall w | w in words :: Plain(w)
    ensures Fields(Join(words, ' ')) == words
  {
    if |words| == 1 {
      FieldsOfWord(words[0], "");
      assert words[0] + "" == words[0];
    } else if |words| > 1 {
      var tail := " " + Join(words[1..], ' ');
      FieldsOfWord(words[0], tail);
      assert tail[1..] == Join(words[1..], ' ');
      assert Join(words, ' ') == words[0] + tail;
      FieldsInvertsJoin(words[1..]);
    }
  }

  lemma {:induction false} DashAfterOptional(f: seq<string>, from: nat, at: nat)
    requires from <= at < |f| && f[at] == "-" && forall i | from <= i < at :: f[i] != "-"
    ensures Dash(f, from) == at
    decreases at - from
  {
    if from < at {
      DashAfterOptional(f, from + 1, at);
    }
  }

  lemma ColumnsPlain(r: Record)
    requires Printable(r)
    ensures forall w | w in Columns(r) :: Plain(w)
  {
    EscapeIsPlain(r.entry.root);
    EscapeIsPlain(r.entry.mountPoint);
    EscapeIsPlain(r.source);
  }

  lemma LineRoundTrip(r: Record)
    requires Printable(r)
    ensures ParseLine(Join(Columns(r), ' ')) == Some(r.entry)
  {
    var f := Columns(r);
    ColumnsPlain(r);
    FieldsInvertsJoin(f);
    var at := 6 + |r.optional|;
    forall i | 6 <= i < at ensures f[i] != "-" {
      assert f[i] == r.optional[i - 6] && r.optional[i - 6] in r.optional;
    }
    DashAfterOptional(f, 6, at);
    UnescapeInvertsEscape(r.entry.root);
    UnescapeInvertsEscape(r.entry.mountPoint);
  }

  lemma {:induction false} JoinHasNoNewline(words: seq<string>)
    requires forall w | w in words :: Plain(w)
    ensures '\n' !in Join(words, ' ')
  {
    if |words| == 1 {
      assert Plain(words[0]);
    } else if |words| > 1 {
      assert Plain(words[0]);
      JoinHasNoNewline(words[1..]);
    }
  }

  function Lines(records: seq<Record>): seq<string> {
    if records == [] then [] else Lines(records[..|records| - 1]) + [Join(Columns(records[|records| - 1]), ' ')]
  }

  lemma {:induction false} SplitPrint(records: seq<Record>)
    requires forall r | r in records :: Printable(r)
    ensures Split(Print(records), '\n') == Lines(records) + [""]
  {
    if records == [] {
    } else {
      var init, r := records[..|records| - 1], records[|records| - 1];
      var line := Join(Columns(r), ' ');
      SplitPrint(init);
      SplitAppend(Print(init), line, '\n');
      ColumnsPlain(r);
      JoinHasNoNewline(Columns(r));
      SplitWord(line, '\n');
      SplitConcat(Print(init) + line, "", '\n');
      assert Print(records) == Print(init) + line + "\n" + "";
      assert Split(Print(init) + line, '\n') == Lines(init) + [line];
    }
  }

  /** Text put after a last separator becomes the last word. */
  lemma {:induction false} SplitAppend(s: string, w: string, sep: char)
    requires Split(s, sep)[|Split(s, sep)| - 1] == ""
    ensures Split(s + w, sep) == Split(s, sep)[..|Split(s, sep)| - 1] + Split(w, sep)
  {
    if s == "" {
      assert s + w == w;
    } else {
      var rs, rw := Split(s[1..], sep), Split(w, sep);
      Tail(s, w);
      SplitAppend(s[1..], w, sep);
      if s[0] == sep {
        Front([""], rs);
        Associate([""], rs[..|rs| - 1], rw);
      } else {
        Front([[s[0]] + rs[0]], rs[1..]);
        Tail(rs[..|rs| - 1], rw);
        Associate([[s[0]] + rs[0]], rs[1..][..|rs| - 2], rw);
        assert rs[..|rs| - 1][1..] == rs[1..][..|rs| - 2];
      }
    }
  }

  lemma Front<T>(a: seq<T>, b: seq<T>)
    requires b != []
    ensures (a + b)[..|a + b| - 1] == a + b[..|b| - 1]
  {}

  function Entries(records: seq<Record>): seq<Entry> {
    if records == [] then [] else Entries(records[..|records| - 1]) + [records[|records| - 1].entry]
  }

  lemma {:induction false} ParseLinesOfLines(records: seq<Record>)
    requires forall r | r in records :: Printable(r)
    ensures ParseLines(Lines(records)) == Entries(records)
  {
    if records != [] {
      var init, r := records[..|records| - 1], records[|records| - 1];
      ParseLinesOfLines(init);
      LineRoundTrip(r);
      assert Lines(records)[..|Lines(records)| - 1] == Lines(init);
    }
  }

  /** Reading what the kernel writes gives the mounts back: any number of them, with any number of
      optional fields, spaces, tabs, newlines and backslashes in their paths included. */
  lemma MountinfoRoundTrip(records: seq<Record>)
    requires forall r | r in records :: Printable(r)
    ensures ParseLines(Split(Print(records), '\n')) == Entries(records)
  {
    SplitPrint(records);
    ParseLinesOfLines(records);
    assert (Lines(records) + [""])[..|Lines(records)|] == Lines(records);
    assert ParseLine("").None?;
  }
}
