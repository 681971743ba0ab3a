/** The configuration reader with the loops of src/configlib.c. */
module ConfigReader {
  import opened Words
  import opened C = Config

  lemma Rest(line: string, i: nat)
    requires i < |line|
    ensures line[i..] != [] && line[i..][0] == line[i] && line[i..][1..] == line[i + 1..]
  {
  }

  method StripComment(line: string) returns (out: string)
    ensures out == Strip(line, false)
  {
    hide Strip;
    out := [];
    var quote := false;
    var i := 0;
    assert line[0..] == line;
    while i < |line|
      invariant i <= |line| && Strip(line, false) == out + Strip(line[i..], quote)
    {
      StripStep(line, i, quote);
      var c := line[i];
      if c == '#' && !quote {
        return;
      }
      ghost var rest := Strip(line[i + 1..], if c == '"' then !quote else quote);
      assert out + ([c] + rest) == (out + [c]) + rest;
      if c == '"' {
        quote := !quote;
      }
      out := out + [c];
      i := i + 1;
    }
    StripStep(line, i, quote);
  }

  lemma StripStep(line: string, i: nat, quote: bool)
    requires i <= |line|
    ensures i == |line| ==> Strip(line[i..], quote) == []
    ensures i < |line| ==>
              var c := line[i];
              Strip(line[i..], quote) ==
              if c == '#' && !quote then [] else [c] + Strip(line[i + 1..], if c == '"' then !quote else quote)
  {
    if i < |line| {
      Rest(line, i);
    }
  }

  method GetSection(line: string) returns (o: Option<string>)
    ensures o == SectionOf(line, None)
  {
    o := None;
    var i := 0;
    assert line[0..] == line;
    while i < |line|
      invariant i <= |line| && SectionOf(line[i..], o) == SectionOf(line, None)
    {
      Rest(line, i);
      if line[i] == '[' {
        if o.Some? {
          return None;
        }
        o := Some([]);
      } else if line[i] == ']' {
        return o;
      } else if o.Some? {
        o := Some(o.value + [line[i]]);
      }
      i := i + 1;
    }
    return None;
  }

  /** What strlen and strdup see of a buffer. */
  method StrDup(s: string) returns (t: string)
    ensures t == CString(s)
  {
    var i := 0;
    assert s[0..] == s;
    while i < |s| && s[i] != '\0'
      invariant i <= |s| && CString(s) == s[..i] + CString(s[i..])
    {
      Rest(s, i);
      assert s[..i] + ([s[i]] + CString(s[i + 1..])) == s[..i + 1] + CString(s[i + 1..]);
      i := i + 1;
    }
    t := s[..i];
  }

  method StripSpaces(buf: string) returns (s: string)
    requires buf != []
    ensures s == TrimEnd(buf)
  {
    var k := |buf| - 1;
    assert buf[..k + 1] == buf;
    while k > 0 && buf[k] == ' '
      invariant 0 <= k < |buf| && TrimEnd(buf) == TrimEnd(buf[..k + 1])
    {
      assert buf[..k + 1][..k] == buf[..k];
      k := k - 1;
    }
    s := buf[..k + 1];
  }

  method ParseVariable(line: string) returns (o: Option<(string, string)>)
    ensures o == ParseLine(line)
  {
    hide TrimEnd, CString;
    var text := StrDup(line);
    var buf, name, quote := [], None, false;
    var i := 0;
    assert text[0..] == text;
    while i < |text|
      invariant i <= |text| && ScanAll(text[i..], Scan(buf, name, quote)) == ScanAll(text, BLANK)
    {
      var c := text[i];
      Rest(text, i);
      ghost var before := Scan(buf, name, quote);
      if c == '"' {
        quote := !quote;
      } else if c == '=' {
        if quote {
          buf := buf + [c];
        } else if buf == [] || name.Some? {
          return None;
        } else {
          var n := StripSpaces(buf);
          name := Some(n);
          buf := [];
        }
      } else if c == ' ' && (!quote || buf == []) {
      } else if c as int >= 128 {
        return None;
      } else {
        buf := buf + [c];
      }
      assert Scan(buf, name, quote) == ScanChar(before, c);
      i := i + 1;
    }
    assert text[i..] == [];
    if buf == [] || name.None? {
      return None;
    }
    var val := StripSpaces(buf);
    o := Some((name.value, val));
  }

  class File {
    var section: Option<string>
    var found: seq<Binding>

    constructor ()
      ensures section == None && found == []
    {
      section, found := None, [];
    }

    method TakeLine(line: string)
      modifies this
      ensures Reader([], section, found) == EndLine(Reader(line, old(section), old(found)))
    {
      hide Strip, SectionOf, ParseLine, CString;
      var kept := StripComment(line);
      if kept != [] {
        var name := GetSection(kept);
        if name.Some? {
          var copy := StrDup(name.value);
          section := Some(copy);
        } else {
          var pair := ParseVariable(kept);
          if pair.Some? && section.Some? {
            found := found + [Binding(section.value, pair.value.0, pair.value.1)];
          }
        }
      }
    }

    /** The character loop over the whole file. */
    method ReadFile(text: string)
      requires section == None && found == []
      modifies this
      ensures found == Parse(text)
    {
      hide EndLine;
      var line := [];
      var i := 0;
      assert text[0..] == text;
      while i < |text|
        invariant i <= |text| && ReadAll(text[i..], Reader(line, section, found)) == ReadAll(text, START)
      {
        Rest(text, i);
        if text[i] == '\n' {
          TakeLine(line);
          line := [];
        } else if text[i] != '\r' {
          line := line + [text[i]];
        }
        i := i + 1;
      }
      assert text[i..] == [];
    }

    method GetValue(wanted: string, name: string) returns (o: Option<string>)
      ensures o == Lookup(found, wanted, name)
    {
      var i := 0;
      assert found[0..] == found;
      while i < |found|
        invariant i <= |found| && Lookup(found, wanted, name) == Lookup(found[i..], wanted, name)
      {
        assert found[i..][1..] == found[i + 1..];
        if found[i].section == wanted && found[i].name == name {
          return Some(found[i].val);
        }
        i := i + 1;
      }
      o := None;
    }
  }
}
