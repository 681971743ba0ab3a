/** The configuration reader of src/configlib.c: which settings read back as they were written, and
    that a file of such settings reads back as its bindings. */
module Config {
  import opened Words

  datatype Binding = Binding(section: string, name: string, val: string)

  // ---- Comments ----

  /** What is kept of a line; '#' starts a comment outside quotes. */
  function Strip(line: string, quote: bool): (s: string) {
    if line == [] then []
    else if line[0] == '"' then ['"'] + Strip(line[1..], !quote)
    else if line[0] == '#' && !quote then []
    else [line[0]] + Strip(line[1..], quote)
  }

  /** A C string ends at its first NUL. */
  function CString(s: string): (t: string)
    ensures |t| <= |s|
  {
    if s == [] || s[0] == '\0' then [] else [s[0]] + CString(s[1..])
  }

  // ---- Section headers ----

  /** `name` is what was collected since '[', if one was seen. The first ']' ends the scan, and a
      header that is not closed is none. */
  function SectionOf(line: string, name: Option<string>): (o: Option<string>)
    decreases |line|
  {
    if line == [] then None
    else if line[0] == '[' then if name.Some? then None else SectionOf(line[1..], Some([]))
    else if line[0] == ']' then name
    else SectionOf(line[1..], if name.Some? then Some(name.value + [line[0]]) else None)
  }

  // ---- Variables ----

  /** Trailing spaces go, but the first character stays. */
  function TrimEnd(s: string): (t: string)
    ensures |t| <= |s|
  {
    if |s| > 1 && s[|s| - 1] == ' ' then TrimEnd(s[..|s| - 1]) else s
  }

  datatype Scan = Scan(buf: string, name: Option<string>, quote: bool) | Failed

  /** One character of a line: quotes toggle, '=' outside quotes ends the name, and a space is kept
      only inside quotes and not at the beginning. */
  function ScanChar(s: Scan, c: char): (t: Scan)
    requires s.Scan?
  {
    if c == '"' then s.(quote := !s.quote)
    else if c == '=' then
      if s.quote then s.(buf := s.buf + [c])
      else if s.buf == [] || s.name.Some? then Failed
      else s.(buf := [], name := Some(TrimEnd(s.buf)))
    else if c == ' ' && (!s.quote || s.buf == []) then s
    else if c as int >= 128 then Failed
    else s.(buf := s.buf + [c])
  }

  function ScanAll(line: string, s: Scan): (t: Scan)
    decreases |line|
  {
    if line == [] || s.Failed? then s else ScanAll(line[1..], ScanChar(s, line[0]))
  }

  const BLANK := Scan([], None, false)

  function Finish(s: Scan): (o: Option<(string, string)>) {
    if s.Failed? || s.buf == [] || s.name.None? then None else Some((s.name.value, TrimEnd(s.buf)))
  }

  function ParseLine(line: string): (o: Option<(string, string)>) { Finish(ScanAll(CString(line), BLANK)) }

  // ---- The file ----

  /** The line read so far, the current section and the bindings found. */
  datatype Reader = Reader(line: string, section: Option<string>, found: seq<Binding>)

  const START := Reader([], None, [])

  function EndLine(r: Reader): (s: Reader) {
    var line := Strip(r.line, false);
    var next := r.(line := []);
    if line == [] then next
    else
      match SectionOf(line, None)
      case Some(name) => next.(section := Some(CString(name)))
      case None =>
        match ParseLine(line)
        case None => next
        case Some((name, val)) =>
          if r.section.None? then next else next.(found := r.found + [Binding(r.section.value, name, val)])
  }

  function ReadChar(r: Reader, c: char): (s: Reader) {
    if c == '\r' then r else if c == '\n' then EndLine(r) else r.(line := r.line + [c])
  }

  function ReadAll(text: string, r: Reader): (s: Reader)
    decreases |text|
  {
    if text == [] then r else ReadAll(text[1..], ReadChar(r, text[0]))
  }

  /** A last line without newline is not read. */
  function Parse(text: string): (bs: seq<Binding>) { ReadAll(text, START).found }

  /** The first binding of a name in a section. */
  function Lookup(bs: seq<Binding>, section: string, name: string): (o: Option<string>) {
    if bs == [] then None
    else if bs[0].section == section && bs[0].name == name then Some(bs[0].val)
    else Lookup(bs[1..], section, name)
  }

  lemma {:induction false} LookupFirst(bs: seq<Binding>, section: string, name: string)
    ensures Lookup(bs, section, name).None? <==>
            forall i :: 0 <= i < |bs| ==> !(bs[i].section == section && bs[i].name == name)
    ensures Lookup(bs, section, name).Some? ==>
            exists i :: && 0 <= i < |bs| && bs[i] == Binding(section, name, Lookup(bs, section, name).value)
                        && forall k :: 0 <= k < i ==> !(bs[k].section == section && bs[k].name == name)
  {
    if bs != [] {
      LookupFirst(bs[1..], section, name);
      if !(bs[0].section == section && bs[0].name == name) {
        assert bs == [bs[0]] + bs[1..];
        if Lookup(bs[1..], section, name).Some? {
          var i :| && 0 <= i < |bs[1..]| && bs[1..][i] == Binding(section, name, Lookup(bs[1..], section, name).value)
                   && forall k :: 0 <= k < i ==> !(bs[1..][k].section == section && bs[1..][k].name == name);
          assert bs[i + 1] == bs[1..][i];
          assert forall k :: 0 <= k < i + 1 ==> !(bs[k].section == section && bs[k].name == name) by {
            assert forall k :: 0 < k < i + 1 ==> bs[k] == bs[1..][k - 1];
          }
        }
      }
    }
  }

  // ---- What is written ----

  function Blanks(n: nat): (s: string)
    ensures |s| == n && forall i :: 0 <= i < n ==> s[i] == ' '
  {
    if n == 0 then [] else [' '] + Blanks(n - 1)
  }

  /** A section header, a setting with its value quoted or not, or nothing. */
  datatype Item = Header(name: string)
                | Setting(name: string, left: nat, right: nat, val: string, quoted: bool)
                | Nothing

  /** One line: blanks are allowed around everything, and a comment at the end. */
  datatype Line = Line(lead: nat, item: Item, trail: nat, comment: Option<string>)

  function Value(val: string, quoted: bool): (s: string) { if quoted then ['"'] + val + ['"'] else val }

  function Assign(name: string, left: nat, right: nat): (s: string) {
    name + Blanks(left) + ['='] + Blanks(right)
  }

  function Body(item: Item): (s: string) {
    match item
    case Header(name) => ['['] + name + [']']
    case Setting(name, left, right, val, quoted) => Assign(name, left, right) + Value(val, quoted)
    case Nothing => []
  }

  function Comment(o: Option<string>): (s: string) { if o.None? then [] else ['#'] + o.value }

  function Tail(l: Line): (s: string) { Blanks(l.trail) + Comment(l.comment) }

  function Text(l: Line): (s: string) { Blanks(l.lead) + Body(l.item) + Tail(l) }

  /** Every character that may stand in an unquoted name. */
  predicate NameChar(c: char) {
    0 < c as int < 128 && c != '"' && c != '[' && c != ']' && c != '\n' && c != '\r' && c != '=' && c != '#' && c != ' '
  }

  predicate Named(name: string) { name != [] && forall i :: 0 <= i < |name| ==> NameChar(name[i]) }

  predicate OneLine(s: string) { forall i :: 0 <= i < |s| ==> s[i] != '\n' && s[i] != '\r' }

  predicate Without(s: string, c: char) { forall i :: 0 <= i < |s| ==> s[i] != c }

  predicate Ascii(s: string) { forall i :: 0 <= i < |s| ==> s[i] as int < 128 }

  predicate NoBrackets(s: string) { Without(s, '[') && Without(s, ']') }

  /** The first bracket is '[' and the next one ']'. */
  ghost predicate Bracketed(s: string) { exists i, j :: OpensCloses(s, i, j) }

  predicate OpensCloses(s: string, i: int, j: int) {
    0 <= i < j < |s| && s[i] == '[' && s[j] == ']' && forall k :: 0 <= k < j && k != i ==> !IsBracket(s[k])
  }

  /** The first bracket is ']'. */
  predicate Closes(s: string, j: int) {
    0 <= j < |s| && s[j] == ']' && forall k :: 0 <= k < j ==> !IsBracket(s[k])
  }

  predicate IsBracket(c: char) { c == '[' || c == ']' }

  /** No quote and no end of line. */
  predicate Clean(s: string) { OneLine(s) && Without(s, '"') }

  /** The values that read back: ASCII without quote, NUL and end of line, no section name in brackets,
      and quoted no blank at either end, unquoted no blank, '=' or '#' anywhere. */
  ghost predicate Kept(val: string, quoted: bool) {
    && val != [] && Clean(val) && Ascii(val) && Without(val, '\0') && !Bracketed(val)
    && if quoted then val[0] != ' ' && val[|val| - 1] != ' '
       else Without(val, ' ') && Without(val, '=') && Without(val, '#')
  }

  /** A comment may hold anything, NULs included, since it is stripped before the line is looked at. */
  ghost predicate Written(l: Line) {
    && (l.comment.Some? ==> OneLine(l.comment.value))
    && match l.item
       case Header(name) =>
         OneLine(name) && NoBrackets(name) && Without(name, '"') && Without(name, '#') && Without(name, '\0')
       case Setting(name, _, _, val, quoted) => Named(name) && Kept(val, quoted)
       case Nothing => true
  }

  function Print(ls: seq<Line>): (text: string) {
    if ls == [] then [] else Text(ls[0]) + "\n" + Print(ls[1..])
  }

  /** The bindings a file stands for; those before the first header belong to no section. */
  function Meaning(ls: seq<Line>, section: Option<string>): (bs: seq<Binding>) {
    if ls == [] then []
    else
      match ls[0].item
      case Header(name) => Meaning(ls[1..], Some(name))
      case Setting(name, _, _, val, _) =>
        (if section.None? then [] else [Binding(section.value, name, val)]) + Meaning(ls[1..], section)
      case Nothing => Meaning(ls[1..], section)
  }

  // ---- Stripping a written line ----

  lemma {:induction false} StripKeeps(a: string, b: string, quote: bool)
    requires Without(a, '"') && (quote || Without(a, '#'))
    ensures Strip(a + b, quote) == a + Strip(b, quote)
  {
    if a == [] {
      assert a + b == b;
    } else {
      StripKeeps(a[1..], b, quote);
      assert (a + b)[1..] == a[1..] + b;
      assert [a[0]] + (a[1..] + Strip(b, quote)) == a + Strip(b, quote);
    }
  }

  /** A '#' outside quotes ends the line, so something is missing. */
  lemma {:induction false} StripCuts(a: string, b: string)
    requires Without(a, '"') && !Without(a, '#')
    ensures Strip(a + b, false) == Strip(a, false) && |Strip(a, false)| < |a|
    ensures forall i :: 0 <= i < |Strip(a, false)| ==> Strip(a, false)[i] == a[i]
  {
    if a[0] != '#' {
      StripCuts(a[1..], b);
      assert (a + b)[1..] == a[1..] + b;
    }
  }

  lemma StripQuote(b: string, quote: bool)
    ensures Strip(['"'] + b, quote) == ['"'] + Strip(b, !quote)
  {
    assert (['"'] + b)[1..] == b;
  }

  lemma StripTail(l: Line)
    ensures Strip(Tail(l), false) == Blanks(l.trail)
  {
    StripKeeps(Blanks(l.trail), Comment(l.comment), false);
    assert Blanks(l.trail) + [] == Blanks(l.trail);
  }

  /** A line without quotes and '#' keeps all but its comment. */
  lemma StripPlain(l: Line)
    requires Without(Body(l.item), '"') && Without(Body(l.item), '#')
    ensures Strip(Text(l), false) == Blanks(l.lead) + Body(l.item) + Blanks(l.trail)
  {
    StripKeeps(Blanks(l.lead) + Body(l.item), Tail(l), false);
    StripTail(l);
  }

  function Before(l: Line): (s: string)
    requires l.item.Setting?
  {
    Blanks(l.lead) + Assign(l.item.name, l.item.left, l.item.right)
  }

  lemma BeforePlain(l: Line)
    requires l.item.Setting? && Named(l.item.name)
    ensures var pre := Before(l);
            && NoBrackets(pre) && Without(pre, '"') && Without(pre, '#') && Without(pre, '\0') && OneLine(pre)
            && |pre| > 0
  {
  }

  lemma SettingText(l: Line)
    requires l.item.Setting?
    ensures Text(l) == Before(l) + (Value(l.item.val, l.item.quoted) + Tail(l))
  {
  }

  lemma StripSetting(l: Line)
    requires l.item.Setting? && Named(l.item.name) && Without(l.item.val, '"')
    requires l.item.quoted || Without(l.item.val, '#')
    ensures Strip(Text(l), false) == Before(l) + (Value(l.item.val, l.item.quoted) + Blanks(l.trail))
  {
    hide Strip, Before, Tail, Blanks;
    var val := l.item.val;
    SettingText(l);
    BeforePlain(l);
    StripKeeps(Before(l), Value(val, l.item.quoted) + Tail(l), false);
    StripTail(l);
    if l.item.quoted {
      StripQuote(val + (['"'] + Tail(l)), false);
      StripKeeps(val, ['"'] + Tail(l), true);
      StripQuote(Tail(l), true);
      assert Value(val, true) + Tail(l) == ['"'] + (val + (['"'] + Tail(l)));
      assert Value(val, true) + Blanks(l.trail) == ['"'] + (val + (['"'] + Blanks(l.trail)));
    } else {
      StripKeeps(val, Tail(l), false);
    }
  }

  // ---- Section names ----

  lemma {:induction false} SectionAfter(a: string, b: string)
    requires NoBrackets(a)
    ensures SectionOf(a + b, None) == SectionOf(b, None)
  {
    if a == [] {
      assert a + b == b;
    } else {
      SectionAfter(a[1..], b);
      assert (a + b)[1..] == a[1..] + b;
    }
  }

  lemma {:induction false} SectionBefore(a: string, b: string, name: Option<string>)
    requires NoBrackets(b)
    ensures SectionOf(a + b, name) == SectionOf(a, name)
    decreases |a|, |b|
  {
    if a == [] {
      assert a + b == b;
      if b != [] {
        SectionBefore([], b[1..], if name.Some? then Some(name.value + [b[0]]) else None);
        assert [] + b[1..] == b[1..];
      }
    } else {
      assert (a + b)[1..] == a[1..] + b;
      if a[0] == '[' {
        if name.None? {
          SectionBefore(a[1..], b, Some([]));
        }
      } else if a[0] != ']' {
        SectionBefore(a[1..], b, if name.Some? then Some(name.value + [a[0]]) else None);
      }
    }
  }

  lemma {:induction false} SectionName(name: string, sofar: string)
    requires NoBrackets(name)
    ensures SectionOf(name + [']'], Some(sofar)) == Some(sofar + name)
    decreases |name|
  {
    if name == [] {
      assert sofar + name == sofar;
    } else {
      SectionName(name[1..], sofar + [name[0]]);
      assert (name + [']'])[1..] == name[1..] + [']'];
      assert sofar + [name[0]] + name[1..] == sofar + name;
    }
  }

  lemma ClosesShift(s: string, j: int)
    requires s != [] && !IsBracket(s[0])
    ensures Closes(s[1..], j) <==> Closes(s, j + 1)
  {
    assert forall k :: 0 < k < |s| ==> s[k] == s[1..][k - 1];
    assert forall k :: 0 <= k < |s| - 1 ==> s[1..][k] == s[k + 1];
  }

  lemma {:induction false} ClosesIff(s: string, name: string)
    ensures SectionOf(s, Some(name)).Some? <==> exists j :: Closes(s, j)
    decreases |s|
  {
    hide Closes;
    if s == [] {
      assert forall j :: !Closes(s, j) by { NoneCloses(s); }
    } else if s[0] == '[' {
      assert forall j :: !Closes(s, j) by { NoneCloses(s); }
    } else if s[0] == ']' {
      assert Closes(s, 0) by { ClosesNow(s); }
    } else {
      ClosesIff(s[1..], name + [s[0]]);
      forall j
        ensures Closes(s[1..], j) <==> Closes(s, j + 1)
      {
        ClosesShift(s, j);
      }
      if j :| Closes(s, j) {
        assert Closes(s[1..], j - 1) by { assert Closes(s, (j - 1) + 1); }
      }
    }
  }

  lemma NoneCloses(s: string)
    requires s == [] || s[0] == '['
    ensures forall j :: !Closes(s, j)
  {
  }

  lemma ClosesNow(s: string)
    requires s != [] && s[0] == ']'
    ensures Closes(s, 0)
  {
  }

  lemma BracketedOpen(s: string)
    requires s != [] && s[0] == '['
    ensures Bracketed(s) <==> exists j :: Closes(s[1..], j)
  {
    assert forall k :: 0 < k < |s| ==> s[k] == s[1..][k - 1];
    if j :| Closes(s[1..], j) {
      assert OpensCloses(s, 0, j + 1);
    }
    if i, j :| OpensCloses(s, i, j) {
      assert i == 0;
      assert Closes(s[1..], j - 1);
    }
  }

  lemma BracketedClose(s: string)
    requires s == [] || s[0] == ']'
    ensures !Bracketed(s)
  {
  }

  lemma OpensClosesShift(s: string, i: int, j: int)
    requires s != [] && !IsBracket(s[0])
    ensures OpensCloses(s[1..], i, j) <==> OpensCloses(s, i + 1, j + 1)
  {
    assert forall k :: 0 < k < |s| ==> s[k] == s[1..][k - 1];
    assert forall k :: 0 <= k < |s| - 1 ==> s[1..][k] == s[k + 1];
  }

  lemma BracketedSkip(s: string)
    requires s != [] && !IsBracket(s[0])
    ensures Bracketed(s) <==> Bracketed(s[1..])
  {
    hide OpensCloses;
    if i, j :| OpensCloses(s[1..], i, j) {
      OpensClosesShift(s, i, j);
    }
    if i, j :| OpensCloses(s, i, j) {
      OpensClosesShift(s, i - 1, j - 1);
    }
  }

  /** A line names a section exactly if its first bracket opens and the next one closes. */
  lemma {:induction false} SectionIff(s: string)
    ensures SectionOf(s, None).Some? <==> Bracketed(s)
  {
    hide Bracketed, Closes;
    if s == [] {
      BracketedClose(s);
    } else if s[0] == '[' {
      ClosesIff(s[1..], []);
      BracketedOpen(s);
    } else if s[0] == ']' {
      BracketedClose(s);
    } else {
      SectionIff(s[1..]);
      BracketedSkip(s);
    }
  }

  lemma SectionHeader(lead: nat, name: string, trail: nat)
    requires NoBrackets(name)
    ensures SectionOf(Blanks(lead) + (['['] + name + [']']) + Blanks(trail), None) == Some(name)
  {
    var body := ['['] + name + [']'];
    SectionBefore(Blanks(lead) + body, Blanks(trail), None);
    SectionAfter(Blanks(lead), body);
    SectionName(name, []);
    assert body[1..] == name + [']'];
    assert [] + name == name;
  }

  // ---- Scanning a setting ----

  lemma {:induction false} CStringWhole(a: string, b: string)
    requires Without(a, '\0')
    ensures CString(a + b) == a + CString(b)
  {
    if a == [] {
      assert a + b == b;
    } else {
      CStringWhole(a[1..], b);
      assert (a + b)[1..] == a[1..] + b;
    }
  }

  /** A NUL ends the string, so something is missing. */
  lemma {:induction false} CStringCuts(a: string, b: string)
    requires !Without(a, '\0')
    ensures CString(a + b) == CString(a) && |CString(a)| < |a|
    ensures forall i :: 0 <= i < |CString(a)| ==> CString(a)[i] == a[i]
  {
    if a[0] != '\0' {
      CStringCuts(a[1..], b);
      assert (a + b)[1..] == a[1..] + b;
    }
  }

  lemma CStringAll(a: string)
    requires Without(a, '\0')
    ensures CString(a) == a
  {
    CStringWhole(a, []);
    assert a + [] == a;
  }

  lemma {:induction false} ScanAppend(a: string, b: string, s: Scan)
    ensures ScanAll(a + b, s) == ScanAll(b, ScanAll(a, s))
    decreases |a|
  {
    hide ScanChar;
    if a == [] {
      assert a + b == b;
    } else if s.Scan? {
      ScanAppend(a[1..], b, ScanChar(s, a[0]));
      assert (a + b)[1..] == a[1..] + b;
    }
  }

  lemma {:induction false} ScanBlanks(n: nat, s: Scan)
    requires s.Scan? && !s.quote
    ensures ScanAll(Blanks(n), s) == s
  {
    if n > 0 {
      ScanBlanks(n - 1, s);
    }
  }

  /** A value without its blanks. */
  function Squeeze(a: string): (b: string)
    ensures |b| <= |a|
  {
    if a == [] then [] else if a[0] == ' ' then Squeeze(a[1..]) else [a[0]] + Squeeze(a[1..])
  }

  lemma {:induction false} SqueezeIff(a: string)
    ensures (Squeeze(a) == a <==> Without(a, ' ')) && Without(Squeeze(a), ' ')
  {
    if a != [] {
      SqueezeIff(a[1..]);
      assert a == [a[0]] + a[1..];
    }
  }

  /** Outside quotes blanks vanish and '=' is allowed once only. */
  lemma {:induction false} ScanOpen(a: string, s: Scan)
    requires s.Scan? && !s.quote && Without(a, '"') && (s.name.Some? || Without(a, '='))
    ensures ScanAll(a, s) == if Ascii(a) && Without(a, '=') then s.(buf := s.buf + Squeeze(a)) else Failed
    decreases |a|
  {
    if a == [] {
      assert s.buf + Squeeze(a) == s.buf;
    } else if ScanChar(s, a[0]).Scan? {
      ScanOpen(a[1..], ScanChar(s, a[0]));
      assert a == [a[0]] + a[1..];
      if a[0] != ' ' {
        assert s.buf + [a[0]] + Squeeze(a[1..]) == s.buf + Squeeze(a);
      }
    }
  }

  function DropLead(a: string): (b: string)
    ensures |b| <= |a| && (a != [] && a[0] == ' ' ==> |b| < |a|)
  {
    if a != [] && a[0] == ' ' then DropLead(a[1..]) else a
  }

  /** Inside quotes only the blanks in front vanish. */
  lemma {:induction false} ScanQuoted(a: string, s: Scan)
    requires s.Scan? && s.quote && Without(a, '"')
    ensures ScanAll(a, s) == if Ascii(a) then s.(buf := if s.buf == [] then DropLead(a) else s.buf + a) else Failed
    decreases |a|
  {
    if a == [] {
      assert s.buf + a == s.buf;
    } else if ScanChar(s, a[0]).Scan? {
      ScanQuoted(a[1..], ScanChar(s, a[0]));
      assert a == [a[0]] + a[1..];
      assert s.buf + [a[0]] + a[1..] == s.buf + a;
    }
  }

  lemma ScanOne(c: char, s: Scan)
    requires s.Scan?
    ensures ScanAll([c], s) == ScanChar(s, c)
  {
    assert [c][1..] == [];
    assert ScanAll([], ScanChar(s, c)) == ScanChar(s, c);
  }

  lemma TrimNothing(s: string)
    requires s != [] && s[|s| - 1] != ' '
    ensures TrimEnd(s) == s
  {
  }

  lemma TrimSomething(s: string)
    requires |s| > 1 && s[|s| - 1] == ' '
    ensures |TrimEnd(s)| < |s|
  {
  }

  /** Up to the value: the name is known and the buffer empty. */
  lemma ScanBefore(l: Line)
    requires l.item.Setting? && Named(l.item.name)
    ensures ScanAll(Before(l), BLANK) == Scan([], Some(l.item.name), false)
  {
    hide ScanAll, ScanChar, Blanks, TrimEnd, Squeeze;
    var name := l.item.name;
    var s := BLANK.(buf := name);
    ScanBlanks(l.lead, BLANK);
    ScanOpen(name, BLANK);
    SqueezeIff(name);
    assert [] + name == name;
    ScanBlanks(l.item.left, s);
    ScanOne('=', s);
    TrimNothing(name);
    assert ScanChar(s, '=') == Scan([], Some(name), false) by { EqualsEnds(s); }
    ScanBlanks(l.item.right, Scan([], Some(name), false));
    ScanAppend(Blanks(l.lead), name, BLANK);
    ScanAppend(Blanks(l.lead) + name, Blanks(l.item.left), BLANK);
    ScanAppend(Blanks(l.lead) + name + Blanks(l.item.left), ['='], BLANK);
    ScanAppend(Blanks(l.lead) + name + Blanks(l.item.left) + ['='], Blanks(l.item.right), BLANK);
    assert Before(l) == Blanks(l.lead) + name + Blanks(l.item.left) + ['='] + Blanks(l.item.right);
  }

  lemma EqualsEnds(s: Scan)
    requires s.Scan? && !s.quote && s.buf != [] && s.name.None?
    ensures ScanChar(s, '=') == Scan([], Some(TrimEnd(s.buf)), false)
  {
  }

  function AtValue(name: string): (s: Scan) { Scan([], Some(name), false) }

  /** A setting is parsed from what follows its '='. */
  lemma ParseAfter(l: Line, rest: string)
    requires l.item.Setting? && Named(l.item.name)
    ensures ParseLine(Before(l) + rest) == Finish(ScanAll(CString(rest), AtValue(l.item.name)))
  {
    hide ScanAll, Before, CString;
    BeforePlain(l);
    CStringWhole(Before(l), rest);
    ScanBefore(l);
    ScanAppend(Before(l), CString(rest), BLANK);
  }

  /** What an unquoted value reads as. */
  lemma OpenValue(name: string, a: string)
    requires Without(a, '"')
    ensures Finish(ScanAll(a, AtValue(name))) ==
            if Ascii(a) && Without(a, '=') && Squeeze(a) != [] then Some((name, Squeeze(a))) else None
  {
    hide ScanAll;
    ScanOpen(a, AtValue(name));
    SqueezeIff(a);
    assert [] + Squeeze(a) == Squeeze(a);
    if Squeeze(a) != [] {
      TrimNothing(Squeeze(a));
    }
  }

  /** What a quoted value reads as, its closing quote present or not. */
  lemma QuotedValue(name: string, a: string, rest: string, n: nat)
    requires Without(a, '"') && (rest == [] || rest == ['"'] + Blanks(n))
    ensures Finish(ScanAll(['"'] + a + rest, AtValue(name))) ==
            if Ascii(a) && DropLead(a) != [] then Some((name, TrimEnd(DropLead(a)))) else None
  {
    hide ScanAll, TrimEnd, Blanks;
    var s := AtValue(name);
    var q := s.(quote := true);
    ScanOne('"', s);
    ScanQuoted(a, q);
    ScanAppend(['"'], a, s);
    ScanAppend(['"'] + a, rest, s);
    if Ascii(a) {
      var t := q.(buf := DropLead(a));
      if rest == [] {
        assert ScanAll(rest, t) == t by { ScanNothing(t); }
      } else {
        ScanOne('"', t);
        ScanBlanks(n, t.(quote := false));
        ScanAppend(['"'], Blanks(n), t);
      }
    } else {
      FailedStays(rest);
    }
  }

  lemma ScanNothing(s: Scan)
    ensures ScanAll([], s) == s
  {
  }

  lemma FailedStays(a: string)
    ensures ScanAll(a, Failed) == Failed
  {
  }

  /** The line with its comment stripped reads as this setting. */
  predicate Parses(line: string, name: string, val: string) {
    line != [] && SectionOf(line, None) == None && ParseLine(line) == Some((name, val))
  }

  lemma OpenReadsIff(l: Line)
    requires l.item.Setting? && !l.item.quoted && Named(l.item.name) && Clean(l.item.val)
    ensures Parses(Strip(Text(l), false), l.item.name, l.item.val) <==> Kept(l.item.val, false)
  {
    hide Strip, SectionOf, ParseLine, CString, Before, Finish, ScanAll, Tail, Blanks, Bracketed;
    var name, val, pre := l.item.name, l.item.val, Before(l);
    SectionIff(val);
    BeforePlain(l);
    if !Without(val, '#') {
      SettingText(l);
      StripKeeps(pre, val + Tail(l), false);
      StripCuts(val, Tail(l));
      var x := Strip(val, false);
      ParseAfter(l, x);
      CStringPrefix(x);
      OpenValue(name, CString(x));
    } else {
      var x := val + Blanks(l.trail);
      StripSetting(l);
      SectionAfter(pre, x);
      SectionBefore(val, Blanks(l.trail), None);
      ParseAfter(l, x);
      if !Without(val, '\0') {
        CStringCuts(val, Blanks(l.trail));
        OpenValue(name, CString(val));
      } else {
        CStringAll(x);
        OpenValue(name, x);
        SqueezeAppend(val, Blanks(l.trail));
        AllBlank(l.trail);
        SqueezeIff(val);
        assert Squeeze(val) + [] == Squeeze(val);
        assert forall i :: 0 <= i < |val| ==> x[i] == val[i];
        assert Ascii(x) == Ascii(val) && Without(x, '=') == Without(val, '=');
      }
    }
  }

  lemma {:induction false} CStringPrefix(s: string)
    ensures forall i :: 0 <= i < |CString(s)| ==> CString(s)[i] == s[i]
  {
    if s != [] && s[0] != '\0' {
      CStringPrefix(s[1..]);
    }
  }

  lemma SqueezeCons(c: char, a: string)
    ensures Squeeze([c] + a) == if c == ' ' then Squeeze(a) else [c] + Squeeze(a)
  {
    assert ([c] + a)[1..] == a;
  }

  lemma SqueezeNone()
    ensures Squeeze([]) == []
  {
  }

  lemma {:induction false} SqueezeAppend(a: string, b: string)
    ensures Squeeze(a + b) == Squeeze(a) + Squeeze(b)
  {
    hide Squeeze;
    if a == [] {
      SqueezeNone();
      assert a + b == b && [] + Squeeze(b) == Squeeze(b);
    } else {
      var c, r := a[0], a[1..];
      SqueezeAppend(r, b);
      SqueezeCons(c, r);
      SqueezeCons(c, r + b);
      assert a == [c] + r && a + b == [c] + (r + b);
      assert [c] + (Squeeze(r) + Squeeze(b)) == ([c] + Squeeze(r)) + Squeeze(b);
    }
  }

  lemma {:induction false} AllBlank(n: nat)
    ensures Squeeze(Blanks(n)) == []
  {
    if n > 0 {
      AllBlank(n - 1);
    }
  }

  lemma QuotedReadsIff(l: Line)
    requires l.item.Setting? && l.item.quoted && Named(l.item.name) && Clean(l.item.val)
    ensures Parses(Strip(Text(l), false), l.item.name, l.item.val) <==> Kept(l.item.val, true)
  {
    hide Strip, SectionOf, ParseLine, CString, Before, Finish, ScanAll, Blanks, Bracketed;
    var name, val, pre := l.item.name, l.item.val, Before(l);
    SectionIff(val);
    var end := ['"'] + Blanks(l.trail);
    var x := ['"'] + val + end;
    BeforePlain(l);
    StripSetting(l);
    assert Value(val, true) + Blanks(l.trail) == x;
    SectionAfter(pre, x);
    SectionAfter(['"'], val + end);
    assert x == ['"'] + (val + end);
    SectionBefore(val, end, None);
    ParseAfter(l, x);
    if !Without(val, '\0') {
      CStringWhole(['"'], val + end);
      CStringCuts(val, end);
      assert ['"'] + CString(val) + [] == ['"'] + CString(val);
      QuotedValue(name, CString(val), [], 0);
    } else {
      CStringAll(x);
      QuotedValue(name, val, end, l.trail);
      if val != [] {
        TrimKeepsIff(val);
      }
    }
  }

  /** Blanks are lost at either end and nowhere else. */
  lemma TrimKeepsIff(val: string)
    requires val != []
    ensures DropLead(val) != [] && TrimEnd(DropLead(val)) == val <==> val[0] != ' ' && val[|val| - 1] != ' '
  {
    if val[0] != ' ' {
      if val[|val| - 1] == ' ' {
        TrimSomething(val);
      } else {
        TrimNothing(val);
      }
    }
  }

  // ---- One line ----

  /** One written line, read at the beginning of a line. */
  function Effect(r: Reader, item: Item): (s: Reader) {
    match item
    case Header(name) => r.(section := Some(name))
    case Setting(name, _, _, val, _) =>
      if r.section.None? then r else r.(found := r.found + [Binding(r.section.value, name, val)])
    case Nothing => r
  }

  lemma LineReadsIff(r: Reader, l: Line)
    requires r.line == [] && r.section.Some?
    requires l.item.Setting? && Named(l.item.name) && Clean(l.item.val)
    ensures EndLine(r.(line := Text(l))) == Effect(r, l.item) <==> Kept(l.item.val, l.item.quoted)
  {
    hide Strip, SectionOf, ParseLine, Kept;
    if l.item.quoted {
      QuotedReadsIff(l);
    } else {
      OpenReadsIff(l);
    }
    var line, b := Strip(Text(l), false), Binding(r.section.value, l.item.name, l.item.val);
    assert (r.found + [b])[|r.found|] == b;
  }

  lemma SettingReads(r: Reader, l: Line)
    requires r.line == [] && l.item.Setting? && Written(l)
    ensures EndLine(r.(line := Text(l))) == Effect(r, l.item)
  {
    hide Strip, SectionOf, ParseLine, Bracketed;
    if l.item.quoted {
      QuotedReadsIff(l);
    } else {
      OpenReadsIff(l);
    }
  }

  lemma HeaderReads(r: Reader, l: Line)
    requires r.line == [] && l.item.Header? && Written(l)
    ensures EndLine(r.(line := Text(l))) == Effect(r, l.item)
  {
    hide Strip, SectionOf, ParseLine, CString, Blanks;
    StripPlain(l);
    SectionHeader(l.lead, l.item.name, l.trail);
    CStringAll(l.item.name);
  }

  lemma NothingReads(r: Reader, l: Line)
    requires r.line == [] && l.item.Nothing?
    ensures EndLine(r.(line := Text(l))) == r
  {
    hide Strip, SectionOf, CString, ScanAll;
    StripPlain(l);
    var n := l.lead + l.trail;
    assert Strip(Text(l), false) == Blanks(l.lead) + Blanks(l.trail) == Blanks(n) by { BlanksJoin(l.lead, l.trail); }
    SectionAfter(Blanks(n), []);
    assert Blanks(n) + [] == Blanks(n);
    assert SectionOf([], None) == None by { NoSection(); }
    CStringAll(Blanks(n));
    ScanBlanks(n, BLANK);
  }

  lemma NoSection()
    ensures SectionOf([], None) == None
  {
  }

  lemma {:induction false} BlanksJoin(m: nat, n: nat)
    ensures Blanks(m) + Blanks(n) == Blanks(m + n)
  {
    if m > 0 {
      BlanksJoin(m - 1, n);
    }
  }

  lemma EndOfLine(r: Reader, l: Line)
    requires r.line == [] && Written(l)
    ensures EndLine(r.(line := Text(l))) == Effect(r, l.item)
  {
    hide EndLine, Text;
    match l.item
    case Header(_) => HeaderReads(r, l);
    case Setting(_, _, _, _, _) => SettingReads(r, l);
    case Nothing => NothingReads(r, l);
  }

  // ---- A whole file ----

  lemma {:induction false} ReadAppend(a: string, b: string, r: Reader)
    ensures ReadAll(a + b, r) == ReadAll(b, ReadAll(a, r))
    decreases |a|
  {
    hide ReadChar;
    if a == [] {
      assert a + b == b;
    } else {
      ReadAppend(a[1..], b, ReadChar(r, a[0]));
      assert (a + b)[1..] == a[1..] + b;
    }
  }

  lemma {:induction false} ReadLine(a: string, r: Reader)
    requires forall i :: 0 <= i < |a| ==> a[i] != '\n' && a[i] != '\r'
    ensures ReadAll(a, r) == r.(line := r.line + a)
    decreases |a|
  {
    hide EndLine;
    if a == [] {
      assert r.line + a == r.line;
    } else {
      ReadLine(a[1..], ReadChar(r, a[0]));
      assert r.line + [a[0]] + a[1..] == r.line + a;
    }
  }

  lemma ReadNewline(r: Reader)
    ensures ReadAll("\n", r) == EndLine(r)
  {
    hide EndLine;
    assert "\n"[1..] == [];
  }

  ghost predicate Commented(l: Line) { l.comment.Some? ==> OneLine(l.comment.value) }

  lemma LineClean(l: Line)
    requires Commented(l) && OneLine(Body(l.item))
    ensures OneLine(Text(l))
  {
    hide Blanks, Body;
    assert OneLine(Comment(l.comment)) && OneLine(Blanks(l.lead)) && OneLine(Blanks(l.trail));
    OneLineAppend(Blanks(l.trail), Comment(l.comment));
    OneLineAppend(Blanks(l.lead), Body(l.item));
    OneLineAppend(Blanks(l.lead) + Body(l.item), Tail(l));
  }

  lemma OneLineAppend(a: string, b: string)
    requires OneLine(a) && OneLine(b)
    ensures OneLine(a + b)
  {
  }

  lemma SettingClean(item: Item)
    requires item.Setting? && Named(item.name) && OneLine(item.val)
    ensures OneLine(Body(item))
  {
    var Setting(name, left, right, val, quoted) := item;
    assert OneLine(name) && OneLine(Blanks(left)) && OneLine(Blanks(right)) && OneLine(Value(val, quoted));
    OneLineAppend(name, Blanks(left));
    OneLineAppend(name + Blanks(left), ['=']);
    OneLineAppend(name + Blanks(left) + ['='], Blanks(right));
    OneLineAppend(Assign(name, left, right), Value(val, quoted));
  }

  lemma WrittenClean(l: Line)
    requires Written(l)
    ensures Commented(l) && OneLine(Body(l.item))
  {
    hide Bracketed;
    match l.item
    case Header(name) =>
      OneLineAppend(['['], name);
      OneLineAppend(['['] + name, [']']);
    case Setting(_, _, _, _, _) =>
      SettingClean(l.item);
    case Nothing =>
  }

  lemma ReadWhole(text: string, r: Reader)
    requires r.line == [] && OneLine(text)
    ensures ReadAll(text + "\n", r) == EndLine(r.(line := text))
  {
    hide ReadAll, EndLine;
    ReadAppend(text, "\n", r);
    ReadLine(text, r);
    assert [] + text == text;
    ReadNewline(r.(line := text));
  }

  /** A written line followed by anything else. */
  lemma ReadText(l: Line, rest: string, r: Reader)
    requires r.line == [] && Written(l)
    ensures ReadAll(Text(l) + "\n" + rest, r) == ReadAll(rest, Effect(r, l.item))
  {
    hide ReadAll, EndLine, Text, Written;
    ReadAppend(Text(l) + "\n", rest, r);
    WrittenClean(l);
    LineClean(l);
    ReadWhole(Text(l), r);
    EndOfLine(r, l);
  }

  // ---- What can be read at all ----

  lemma {:induction false} StripClean(a: string, quote: bool)
    requires OneLine(a)
    ensures OneLine(Strip(a, quote))
  {
    if a != [] {
      StripClean(a[1..], !quote);
      StripClean(a[1..], quote);
    }
  }

  lemma {:induction false} CStringClean(a: string)
    requires OneLine(a)
    ensures OneLine(CString(a))
  {
    if a != [] && a[0] != '\0' {
      CStringClean(a[1..]);
    }
  }

  lemma {:induction false} ScanClean(a: string, s: Scan)
    requires OneLine(a) && s.Scan? && Clean(s.buf)
    ensures ScanAll(a, s).Scan? ==> Clean(ScanAll(a, s).buf)
    decreases |a|
  {
    hide TrimEnd;
    if a != [] && ScanChar(s, a[0]).Scan? {
      ScanClean(a[1..], ScanChar(s, a[0]));
    }
  }

  lemma {:induction false} TrimClean(s: string)
    requires Clean(s)
    ensures Clean(TrimEnd(s))
  {
    if |s| > 1 && s[|s| - 1] == ' ' {
      TrimClean(s[..|s| - 1]);
    }
  }

  lemma ParseClean(line: string)
    requires OneLine(line)
    ensures ParseLine(line).Some? ==> Clean(ParseLine(line).value.1)
  {
    hide ScanAll, TrimEnd, CString;
    CStringClean(line);
    ScanClean(CString(line), BLANK);
    var s := ScanAll(CString(line), BLANK);
    if s.Scan? {
      TrimClean(s.buf);
    }
  }

  /** The line holds no end of line, and every value found from the n-th on is clean. */
  ghost predicate Tidy(r: Reader, n: nat) {
    OneLine(r.line) && n <= |r.found| && forall i :: n <= i < |r.found| ==> Clean(r.found[i].val)
  }

  lemma EndTidy(r: Reader, n: nat)
    requires Tidy(r, n)
    ensures Tidy(EndLine(r), n)
  {
    hide Strip, SectionOf, ParseLine, Clean, CString;
    StripClean(r.line, false);
    ParseClean(Strip(r.line, false));
  }

  /** No quote and no end of line ever gets into a value. */
  lemma {:induction false} ReadTidy(text: string, r: Reader, n: nat)
    requires Tidy(r, n)
    ensures Tidy(ReadAll(text, r), n)
    decreases |text|
  {
    hide EndLine, Clean;
    if text != [] {
      if text[0] == '\n' {
        EndTidy(r, n);
      }
      ReadTidy(text[1..], ReadChar(r, text[0]), n);
    }
  }

  /** Inside a section, a setting reads back as it was written if and only if its value is one of
      those kept; anything else is cut, squeezed, split, refused or taken for a section. */
  lemma SettingReadsIff(r: Reader, l: Line)
    requires r.line == [] && r.section.Some?
    requires l.item.Setting? && Named(l.item.name) && Commented(l)
    ensures ReadAll(Text(l) + "\n", r) == Effect(r, l.item) <==> Kept(l.item.val, l.item.quoted)
  {
    hide ReadAll, EndLine, Text, Bracketed, Named;
    if Clean(l.item.val) {
      SettingClean(l.item);
      LineClean(l);
      ReadWhole(Text(l), r);
      LineReadsIff(r, l);
    } else {
      ReadTidy(Text(l) + "\n", r, |r.found|);
      var found := ReadAll(Text(l) + "\n", r).found;
      assert Effect(r, l.item).found[|r.found|].val == l.item.val;
    }
  }

  // ---- All lines ----

  lemma MeaningStep(r: Reader, ls: seq<Line>)
    requires ls != []
    ensures var s := Effect(r, ls[0].item); s.found + Meaning(ls[1..], s.section) == r.found + Meaning(ls, r.section)
  {
    var item := ls[0].item;
    if item.Setting? && r.section.Some? {
      var b := [Binding(r.section.value, item.name, item.val)];
      var m := Meaning(ls[1..], r.section);
      assert r.found + b + m == r.found + (b + m);
    } else if item.Setting? {
      assert [] + Meaning(ls[1..], r.section) == Meaning(ls[1..], r.section);
    }
  }

  lemma {:induction false} ReadLines(ls: seq<Line>, r: Reader)
    requires r.line == [] && forall i :: 0 <= i < |ls| ==> Written(ls[i])
    ensures ReadAll(Print(ls), r).found == r.found + Meaning(ls, r.section)
    decreases |ls|
  {
    hide ReadAll, Text, Written;
    if ls == [] {
      ReadNothing(r);
      assert r.found + [] == r.found;
    } else {
      ReadText(ls[0], Print(ls[1..]), r);
      ReadLines(ls[1..], Effect(r, ls[0].item));
      MeaningStep(r, ls);
    }
  }

  lemma ReadNothing(r: Reader)
    ensures ReadAll([], r) == r
  {
  }

  /** A file of headers, kept settings and comments reads back as its bindings, in order. */
  lemma RoundTrip(ls: seq<Line>)
    requires forall i :: 0 <= i < |ls| ==> Written(ls[i])
    ensures Parse(Print(ls)) == Meaning(ls, None)
  {
    ReadLines(ls, START);
  }

  const FILTER: string := "udp port 5060"

  lemma FilterSqueezes()
    ensures Squeeze(FILTER) == "udpport5060"
  {
    hide Squeeze;
    SqueezeIff("udp");
    SqueezeIff("port");
    SqueezeIff("5060");
    SqueezeAppend("udp", " " + ("port" + (" " + "5060")));
    SqueezeAppend(" ", "port" + (" " + "5060"));
    SqueezeAppend("port", " " + "5060");
    SqueezeAppend(" ", "5060");
    AllBlank(1);
    assert Blanks(1) == " ";
    assert FILTER == "udp" + (" " + ("port" + (" " + "5060")));
  }

  lemma FilterPlain()
    ensures Ascii(FILTER) && Without(FILTER, '=') && Without(FILTER, '"') && Without(FILTER, '\0')
  {
  }

  /** The manual's own filter line, unquoted, reads without its blanks. */
  lemma FilterLosesBlanks(name: string)
    requires Named(name)
    ensures ParseLine(name + " = " + FILTER) == Some((name, "udpport5060"))
  {
    hide ScanAll, ParseLine, Squeeze, CString, Ascii, Without, Finish, FILTER;
    var l := Line(0, Setting(name, 1, 1, FILTER, false), 0, None);
    assert Before(l) == name + " = " by { assert Blanks(1) == " "; }
    ParseAfter(l, FILTER);
    FilterPlain();
    CStringAll(FILTER);
    OpenValue(name, FILTER);
    FilterSqueezes();
  }
}
