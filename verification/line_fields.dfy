/**
 * Reference definitions for the "LABEL: value" reply parsers: every parser
 * splits the reply on newlines, strips each line, and lets the last line
 * that starts with a tag decide that tag's field. These definitions say
 * what the parsers' loops compute without the loops' state.
 */
module LineFields {
  import opened Wrappers
  import opened Strings

  /** `[line.strip() for line in lines]` */
  function MapStrip(lines: seq<string>): (r: seq<string>)
    ensures |r| == |lines|
    ensures forall i :: 0 <= i < |lines| ==> r[i] == Strip(lines[i])
  {
    seq(|lines|, i requires 0 <= i < |lines| => Strip(lines[i]))
  }

  /** The reply's lines as the parsers see them: `text.split('\n')`, each stripped. */
  function Lines(text: string): seq<string> {
    MapStrip(SplitOn(text, '\n'))
  }

  /** `line.replace(tag, '').strip()`: the field value a labelled line carries. */
  function LabelValue(line: string, tag: string): string {
    Strip(RemoveAll(line, tag))
  }

  /** The last line that starts with `tag`, if any. */
  function LastWith(lines: seq<string>, tag: string): (r: Option<string>)
    ensures r.Some? ==> StartsWith(r.value, tag) && r.value in lines
    ensures r.None? ==> forall i :: 0 <= i < |lines| ==> !StartsWith(lines[i], tag)
  {
    if |lines| == 0 then None
    else if StartsWith(lines[|lines| - 1], tag) then Some(lines[|lines| - 1])
    else LastWith(lines[..|lines| - 1], tag)
  }

  /** The value of the field `tag`: taken from its last line, else `default`. */
  function Field(lines: seq<string>, tag: string, default: string): string {
    match LastWith(lines, tag)
    case Some(l) => LabelValue(l, tag)
    case None => default
  }

  /** Some line starts with `tag`. */
  predicate HasLine(lines: seq<string>, tag: string) {
    exists i :: 0 <= i < |lines| && StartsWith(lines[i], tag)
  }

  /** The lines after the first one that starts with `tag` (none if no line does). */
  function AfterFirst(lines: seq<string>, tag: string): (r: seq<string>)
    ensures |r| <= |lines|
    ensures !HasLine(lines, tag) ==> r == []
  {
    if |lines| == 0 then []
    else if StartsWith(lines[0], tag) then lines[1..]
    else
      assert forall i :: 0 <= i < |lines[1..]| ==> lines[1..][i] == lines[i + 1];
      AfterFirst(lines[1..], tag)
  }

  /** Appending a line: it joins the tail once the header has been seen. */
  lemma {:induction false} AfterFirstSnoc(lines: seq<string>, x: string, tag: string)
    ensures AfterFirst(lines + [x], tag)
         == if HasLine(lines, tag) then AfterFirst(lines, tag) + [x] else []
  {
    if |lines| == 0 {
      assert !HasLine(lines, tag);
      assert lines + [x] == [x];
    } else {
      assert (lines + [x])[0] == lines[0];
      assert (lines + [x])[1..] == lines[1..] + [x];
      if StartsWith(lines[0], tag) {
        assert HasLine(lines, tag);
      } else {
        AfterFirstSnoc(lines[1..], x, tag);
        assert HasLine(lines, tag) == HasLine(lines[1..], tag) by {
          if HasLine(lines, tag) {
            var i :| 0 <= i < |lines| && StartsWith(lines[i], tag);
            assert lines[1..][i - 1] == lines[i];
          }
          if HasLine(lines[1..], tag) {
            var i :| 0 <= i < |lines[1..]| && StartsWith(lines[1..][i], tag);
            assert lines[i + 1] == lines[1..][i];
          }
        }
      }
    }
  }

  lemma HasLineSnoc(lines: seq<string>, x: string, tag: string)
    ensures HasLine(lines + [x], tag) == (HasLine(lines, tag) || StartsWith(x, tag))
  {
    if HasLine(lines + [x], tag) {
      var i :| 0 <= i < |lines + [x]| && StartsWith((lines + [x])[i], tag);
      if i < |lines| {
        assert lines[i] == (lines + [x])[i];
      }
    }
    if HasLine(lines, tag) {
      var i :| 0 <= i < |lines| && StartsWith(lines[i], tag);
      assert (lines + [x])[i] == lines[i];
    }
    if StartsWith(x, tag) {
      assert (lines + [x])[|lines|] == x;
    }
  }

  /** Two labels with different first characters never start the same line. */
  lemma LabelsExclusive(line: string, a: string, b: string)
    requires |a| > 0 && |b| > 0 && a[0] != b[0]
    ensures !(StartsWith(line, a) && StartsWith(line, b))
  {
  }

  // ------------------------------------------------- the requested reply format

  /** The bullet marker U+2022 the prompts ask feature lines to start with. */
  const Bullet: char := '\U{2022}'

  /** A reply line in the format the prompts request: the label, a space, the value. */
  function Labelled(tag: string, value: string): (r: string)
    ensures |r| == |tag| + 1 + |value|
    ensures Initial(r) == if |tag| > 0 then tag[0] else ' '
  {
    tag + " " + value
  }

  /** The first character of a line, a space standing in for an empty line. */
  function Initial(line: string): char {
    if |line| > 0 then line[0] else ' '
  }

  /** A label as the format uses it: non-empty, one line, not starting with whitespace. */
  predicate PlainLabel(tag: string) {
    |tag| > 0 && !IsSpace(tag[0]) && '\n' !in tag
  }

  /** A value as the format expects it: one line, non-empty, already stripped, free of its label. */
  predicate PlainValue(value: string, tag: string) {
    PlainLine(value) && !Contains(value, tag)
  }

  /**
   * A line that survives joining with newlines, stripping and splitting
   * unchanged: non-empty, no newline, no whitespace at either end.
   */
  predicate PlainLine(line: string) {
    |line| > 0 && '\n' !in line && !IsSpace(line[0]) && !IsSpace(line[|line| - 1])
  }

  predicate PlainLines(ls: seq<string>) {
    |ls| > 0 && forall i :: 0 <= i < |ls| ==> PlainLine(ls[i])
  }

  /** The line the parser reads back from a labelled line is the value written into it. */
  lemma LabelValueOfLabelled(tag: string, value: string)
    requires PlainLabel(tag) && PlainValue(value, tag)
    ensures LabelValue(Labelled(tag, value), tag) == value
  {
    var line := Labelled(tag, value);
    assert tag[0] != ' ';
    assert line[|tag|..] == " " + value;
    assert (" " + value)[1..] == value;
    RemoveAllNone(value, tag);
    assert RemoveAll(line, tag) == " " + value;
    StripSpacePrefix(value);
    StripUnchanged(value);
  }

  /** A labelled line of a plain value is itself a plain line. */
  lemma LabelledIsPlain(tag: string, value: string)
    requires PlainLabel(tag) && PlainValue(value, tag)
    ensures PlainLine(Labelled(tag, value))
  {
    var line := Labelled(tag, value);
    assert line[0] == tag[0];
    assert line[|line| - 1] == value[|value| - 1];
  }

  /** Joining plain lines with newlines, the parsers see exactly those lines again. */
  lemma LinesOfJoined(ls: seq<string>)
    requires PlainLines(ls)
    ensures Lines(Strip(JoinWith(ls, "\n"))) == ls
  {
    SplitOfJoined(ls);
    MapStripPlain(ls);
  }

  /** Joined plain lines, stripped and split on newlines, are those lines again. */
  lemma SplitOfJoined(ls: seq<string>)
    requires PlainLines(ls)
    ensures SplitOn(Strip(JoinWith(ls, "\n")), '\n') == ls
  {
    JoinedIsStripped(ls);
    SplitOnJoin(ls, '\n');
  }

  lemma JoinedIsStripped(ls: seq<string>)
    requires PlainLines(ls)
    ensures Strip(JoinWith(ls, "\n")) == JoinWith(ls, "\n")
  {
    var j := JoinWith(ls, "\n");
    var first := ls[0];
    var last := ls[|ls| - 1];
    JoinWithEnds(ls, "\n");
    StripUnchanged(j);
  }

  lemma MapStripPlain(ls: seq<string>)
    requires forall i :: 0 <= i < |ls| ==> PlainLine(ls[i])
    ensures MapStrip(ls) == ls
  {
    forall i | 0 <= i < |ls|
      ensures Strip(ls[i]) == ls[i]
    {
      StripUnchanged(ls[i]);
    }
  }

  /** The last line starting with `tag` is the one at `i` when no later line starts with it. */
  lemma {:induction false} LastWithAt(lines: seq<string>, tag: string, i: nat)
    requires i < |lines| && StartsWith(lines[i], tag)
    requires forall j :: i < j < |lines| ==> !StartsWith(lines[j], tag)
    ensures LastWith(lines, tag) == Some(lines[i])
    decreases |lines|
  {
    if i < |lines| - 1 {
      var init := lines[..|lines| - 1];
      assert init[i] == lines[i];
      LastWithAt(init, tag, i);
    }
  }

  /** A field appended to the lines read so far: a line with the tag replaces the field. */
  lemma LastWithSnoc(lines: seq<string>, x: string, tag: string)
    ensures LastWith(lines + [x], tag) == if StartsWith(x, tag) then Some(x) else LastWith(lines, tag)
  {
    assert (lines + [x])[..|lines|] == lines;
  }

  lemma FieldSnoc(lines: seq<string>, x: string, tag: string, default: string)
    ensures Field(lines + [x], tag, default)
         == if StartsWith(x, tag) then LabelValue(x, tag) else Field(lines, tag, default)
  {
    assert (lines + [x])[..|lines|] == lines;
  }

  /**
   * A labelled line read back: the field is the value written next to the
   * label, provided no later line shares the label's first character.
   */
  lemma FieldOfLabelled(lines: seq<string>, tag: string, i: nat, value: string, default: string)
    requires i < |lines| && lines[i] == Labelled(tag, value)
    requires PlainLabel(tag) && PlainValue(value, tag)
    requires forall j :: i < j < |lines| ==> Initial(lines[j]) != tag[0]
    ensures Field(lines, tag, default) == value
  {
    forall j | i < j < |lines|
      ensures !StartsWith(lines[j], tag)
    {
      InitialsApart(lines[j], tag);
    }
    LastWithAt(lines, tag, i);
    LabelValueOfLabelled(tag, value);
  }

  /** A line whose first character differs from the label's does not start with it. */
  lemma InitialsApart(line: string, tag: string)
    requires |tag| > 0 && Initial(line) != Initial(tag)
    ensures !StartsWith(line, tag)
  {
  }
}
