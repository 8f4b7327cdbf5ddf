/** The tag file `tags.txt`: how its text is parsed into the tag list at start-up and how the
    list is written back, one tag per line. */
module TagFile {
  import opened Text

  /** The tag file's path, relative to the working directory. */
  const TagsFileName: string := "tags.txt"

  /** The seed list used when the file is missing, unreadable or holds no tag. */
  const DefaultTags: seq<string> := ["cat", "dog", "house", "car"]

  /** What a parsed line can be: non-empty and without whitespace at its ends. */
  predicate IsCleanTag(t: string) {
    t != [] && IsTrimmed(t)
  }

  /** A tag that survives a write and a re-read unchanged: clean and on one line. */
  predicate IsLineTag(t: string) {
    IsCleanTag(t) && NoBreak(t)
  }

  /** Each line stripped, the empty results dropped, in line order. */
  function ParseLines(lines: seq<string>): (r: seq<string>)
    ensures |r| <= |lines|
    ensures forall k :: 0 <= k < |r| ==> IsCleanTag(r[k])
  {
    if lines == [] then []
    else
      var t := Strip(lines[0]);
      var rest := ParseLines(lines[1..]);
      if t != [] then [t] + rest else rest
  }

  /** Lines without breaks give tags without breaks. */
  lemma {:induction false} ParseLinesNoBreak(lines: seq<string>)
    requires forall k :: 0 <= k < |lines| ==> NoBreak(lines[k])
    ensures forall k :: 0 <= k < |ParseLines(lines)| ==> NoBreak(ParseLines(lines)[k])
  {
    if lines != [] {
      StripNoBreak(lines[0]);
      ParseLinesNoBreak(lines[1..]);
    }
  }

  /** The list comprehension over the file's lines: every tag it yields is clean and break-free. */
  function Parse(text: string): (r: seq<string>)
    ensures forall k :: 0 <= k < |r| ==> IsLineTag(r[k])
  {
    ParseLinesNoBreak(SplitLines(text));
    ParseLines(SplitLines(text))
  }

  /** The comprehension handles the first line on its own. */
  lemma ParseLinesCons(line: string, lines: seq<string>)
    ensures ParseLines([line] + lines) == ParseLines([line]) + ParseLines(lines)
  {
    var t := Strip(line);
    var head := if t != [] then [t] else [];
    assert ParseLines([line]) == head by {
      assert [line][0] == line && [line][1..] == [];
    }
    assert ParseLines([line] + lines) == head + ParseLines(lines) by {
      assert ([line] + lines)[0] == line && ([line] + lines)[1..] == lines;
    }
  }

  /** Parsing text whose first line ends in a break gives the first line's tag, if any, then the
      tags of the rest. */
  lemma ParseLine(line: string, brk: char, rest: string)
    requires NoBreak(line) && IsBreak(brk)
    ensures Parse(line + [brk] + rest) == ParseLines([line]) + Parse(rest)
  {
    SplitLinesCons(line, brk, rest);
    ParseLinesCons(line, SplitLines(rest));
  }

  /** One `\n`-ended line: if the rest parses the same before and after translation, so does the
      whole. */
  lemma ParseReadLf(u: string, rest: string)
    requires NoBreak(u) && Parse(ReadText(rest)) == Parse(rest)
    ensures Parse(ReadText(u + "\n" + rest)) == Parse(u + "\n" + rest)
  {
    ReadTextLf(u, rest);
    ParseLine(u, '\n', ReadText(rest));
    ParseLine(u, '\n', rest);
  }

  /** One line ended by a lone `\r`, which translation turns into `\n`. */
  lemma ParseReadCr(u: string, rest: string)
    requires NoBreak(u) && (rest == [] || rest[0] != '\n')
    requires Parse(ReadText(rest)) == Parse(rest)
    ensures Parse(ReadText(u + "\r" + rest)) == Parse(u + "\r" + rest)
  {
    ReadTextCr(u, rest);
    ParseLine(u, '\n', ReadText(rest));
    ParseLine(u, '\r', rest);
  }

  /** An empty line yields no tag. */
  lemma ParseEmptyLine(rest: string)
    requires rest != [] && rest[0] == '\n'
    ensures Parse(rest) == Parse(rest[1..])
  {
    assert rest == [] + "\n" + rest[1..];
    ParseLine([], '\n', rest[1..]);
    assert ParseLines([[]]) == [];
  }

  /** One line ended by `\r\n`: the raw text has an extra empty line between the two breaks,
      which yields no tag. */
  lemma ParseReadCrLf(u: string, rest: string)
    requires NoBreak(u) && rest != [] && rest[0] == '\n'
    requires Parse(ReadText(rest[1..])) == Parse(rest[1..])
    ensures Parse(ReadText(u + "\r" + rest)) == Parse(u + "\r" + rest)
  {
    var head := ParseLines([u]);
    assert Parse(ReadText(u + "\r" + rest)) == head + Parse(rest[1..]) by {
      ReadTextCrLf(u, rest);
      ParseLine(u, '\n', ReadText(rest[1..]));
    }
    assert Parse(u + "\r" + rest) == head + Parse(rest[1..]) by {
      ParseLine(u, '\r', rest);
      ParseEmptyLine(rest);
    }
  }

  /** Parsing the raw file text gives the same tags as parsing what a text-mode read returns
      after newline translation, so `\r\n` and lone `\r` line ends are handled as the source's
      line iteration handles them. */
  lemma {:induction false} ParseReadText(s: string)
    ensures Parse(ReadText(s)) == Parse(s)
    decreases |s|
  {
    var k := BreakIndex(s);
    if k == |s| {
      assert s[..k] == s;
      ReadTextBreakFree(s, []);
      assert s + [] == s;
    } else {
      var u := s[..k];
      var rest := s[k + 1..];
      if s[k] == '\n' {
        assert s == u + "\n" + rest;
        ParseReadText(rest);
        ParseReadLf(u, rest);
      } else if rest != [] && rest[0] == '\n' {
        assert s == u + "\r" + rest;
        ParseReadText(rest[1..]);
        ParseReadCrLf(u, rest);
      } else {
        assert s == u + "\r" + rest;
        ParseReadText(rest);
        ParseReadCr(u, rest);
      }
    }
  }

  /** The tag list the session starts with, given the file system and whether reading succeeds. */
  function LoadedTags(files: map<string, string>, readOk: bool): (r: seq<string>)
    ensures r != []
    ensures forall k :: 0 <= k < |r| ==> IsLineTag(r[k])
    ensures TagsFileName !in files || !readOk ==> r == DefaultTags
    ensures TagsFileName in files && readOk && Parse(files[TagsFileName]) == [] ==> r == DefaultTags
    ensures TagsFileName in files && readOk && Parse(files[TagsFileName]) != [] ==> r == Parse(files[TagsFileName])
  {
    assert forall k :: 0 <= k < |DefaultTags| ==> IsLineTag(DefaultTags[k]) by {
      assert IsLineTag("cat") && IsLineTag("dog") && IsLineTag("house") && IsLineTag("car");
    }
    if TagsFileName in files && readOk then
      var parsed := Parse(files[TagsFileName]);
      if parsed != [] then parsed else DefaultTags
    else DefaultTags
  }

  /** The file text written for a list: each tag followed by a newline, in list order. */
  function Serialise(tags: seq<string>): (r: string)
    ensures r == [] <==> tags == []
    ensures tags != [] ==> r[|r| - 1] == '\n'
  {
    if tags == [] then "" else tags[0] + "\n" + Serialise(tags[1..])
  }

  /** Writing one more tag appends its line to the text. */
  lemma {:induction false} SerialiseSnoc(tags: seq<string>, t: string)
    ensures Serialise(tags + [t]) == Serialise(tags) + t + "\n"
  {
    if tags == [] {
      assert tags + [t] == [t];
    } else {
      assert (tags + [t])[1..] == tags[1..] + [t];
      SerialiseSnoc(tags[1..], t);
    }
  }

  /** Each line of a serialised list is one of its tags, in order. */
  lemma {:induction false} SplitSerialise(tags: seq<string>)
    requires forall k :: 0 <= k < |tags| ==> NoBreak(tags[k])
    ensures SplitLines(Serialise(tags)) == tags + [""]
  {
    if tags == [] {
      assert BreakIndex("") == 0;
    } else {
      var first, others := tags[0], tags[1..];
      var rest := Serialise(others);
      assert SplitLines(Serialise(tags)) == [first] + SplitLines(rest) by {
        assert Serialise(tags) == first + ['\n'] + rest;
        SplitLinesCons(first, '\n', rest);
      }
      assert SplitLines(rest) == others + [""] by {
        assert forall k :: 0 <= k < |others| ==> others[k] == tags[k + 1];
        SplitSerialise(others);
      }
      assert tags + [""] == [first] + (others + [""]) by {
        assert tags == [first] + others;
      }
    }
  }

  /** Parsing lines that are already clean tags, followed by empty pieces, gives the tags back. */
  lemma {:induction false} ParseCleanLines(tags: seq<string>, tail: seq<string>)
    requires forall k :: 0 <= k < |tags| ==> IsCleanTag(tags[k])
    requires forall k :: 0 <= k < |tail| ==> tail[k] == ""
    ensures ParseLines(tags + tail) == tags
  {
    if tags == [] {
      assert tags + tail == tail;
      ParseBlankLines(tail);
    } else {
      var lines := tags + tail;
      StripFixes(tags[0]);
      assert lines[0] == tags[0];
      assert lines[1..] == tags[1..] + tail;
      ParseCleanLines(tags[1..], tail);
      assert ParseLines(lines) == [tags[0]] + ParseLines(lines[1..]);
      assert tags == [tags[0]] + tags[1..];
    }
  }

  /** Lines holding nothing but whitespace parse to no tag. */
  lemma {:induction false} ParseBlankLines(lines: seq<string>)
    requires forall k :: 0 <= k < |lines| ==> AllSpace(lines[k])
    ensures ParseLines(lines) == []
  {
    if lines != [] {
      StripBlank(lines[0]);
      ParseBlankLines(lines[1..]);
    }
  }

  /** Round trip: reading back the serialised text of one-line clean tags yields the same list. */
  lemma ParseSerialise(tags: seq<string>)
    requires forall k :: 0 <= k < |tags| ==> IsLineTag(tags[k])
    ensures Parse(Serialise(tags)) == tags
  {
    var text := Serialise(tags);
    assert SplitLines(text) == tags + [""] by {
      assert forall k :: 0 <= k < |tags| ==> NoBreak(tags[k]);
      SplitSerialise(tags);
    }
    var tail: seq<string> := [""];
    assert ParseLines(tags + tail) == tags by {
      assert forall k :: 0 <= k < |tags| ==> IsCleanTag(tags[k]);
      assert |tail| == 1 && tail[0] == "";
      ParseCleanLines(tags, tail);
    }
  }

  /** Saving a non-empty list of one-line clean tags and loading the file again restores it. */
  lemma SaveThenLoad(files: map<string, string>, tags: seq<string>)
    requires tags != []
    requires forall k :: 0 <= k < |tags| ==> IsLineTag(tags[k])
    ensures LoadedTags(files[TagsFileName := Serialise(tags)], true) == tags
  {
    var text := Serialise(tags);
    var saved := files[TagsFileName := text];
    assert TagsFileName in saved && saved[TagsFileName] == text;
    ParseSerialise(tags);
    assert Parse(text) == tags;
  }

  /** Deleting every tag writes an empty file, and the next start-up loads the four defaults. */
  lemma EmptyListReloadsDefaults(files: map<string, string>)
    ensures LoadedTags(files[TagsFileName := Serialise([])], true) == DefaultTags
  {
    BlankFileGivesDefaults(files, "");
  }

  /** A tag file with only blank lines yields the default seed list. */
  lemma BlankFileGivesDefaults(files: map<string, string>, text: string)
    requires AllSpace(text)
    ensures LoadedTags(files[TagsFileName := text], true) == DefaultTags
  {
    var lines := SplitLines(text);
    forall k | 0 <= k < |lines|
      ensures AllSpace(lines[k])
    {
      assert forall c :: c in text ==> IsSpace(c);
      forall j | 0 <= j < |lines[k]|
        ensures IsSpace(lines[k][j])
      {
        assert lines[k][j] in lines[k];
      }
    }
    ParseBlankLines(lines);
  }
}
