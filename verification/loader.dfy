/**
 The parts of database bootstrap that are the dashboard's own logic:
 `read_json_file` (app.py:48-68), with its line-by-line fallback, and the
 stripping of column names before a table is written (app.py:105, 118).
 Decoding a JSON document or a JSON line is the `json` module's business;
 it is a parameter here that either yields a value or fails.
 */
module Loader {
  import opened Wrappers
  import opened Text

  /**
   Python text mode with universal newlines: "\r\n" and a lone "\r" both
   read as "\n".
   */
  function Universal(s: string): (r: string)
    ensures '\r' !in r
    ensures |r| <= |s|
    ensures '\r' !in s ==> r == s
    decreases |s|
  {
    if |s| == 0 then ""
    else if s[0] == '\r' && |s| > 1 && s[1] == '\n' then "\n" + Universal(s[2..])
    else if s[0] == '\r' then "\n" + Universal(s[1..])
    else [s[0]] + Universal(s[1..])
  }

  /** The pieces of `s` between '\n' characters. */
  function SplitLines(s: string): (lines: seq<string>)
    ensures |lines| > 0
    ensures forall i :: 0 <= i < |lines| ==> '\n' !in lines[i]
    decreases |s|
  {
    if '\n' !in s then [s]
    else
      var k := FirstIndex(s, '\n');
      [s[..k]] + SplitLines(s[k + 1..])
  }

  /** Joining the pieces back with '\n' restores the text. */
  lemma {:induction false} SplitLinesRoundTrip(s: string)
    ensures Join(SplitLines(s), "\n") == s
    decreases |s|
  {
    if '\n' in s {
      var k := FirstIndex(s, '\n');
      SplitLinesRoundTrip(s[k + 1..]);
      assert s == s[..k] + "\n" + s[k + 1..];
    }
  }

  /** A first line without a line break is split off as the first piece. */
  lemma SplitLinesCons(line: string, rest: string)
    requires '\n' !in line
    ensures SplitLines(line + "\n" + rest) == [line] + SplitLines(rest)
  {
    var s := line + "\n" + rest;
    var k := FirstIndex(s, '\n');
    assert s[|line|] == '\n';
    assert k == |line|;
    assert s[..k] == line;
    assert s[k + 1..] == rest;
  }

  /** A line that `strip()` leaves non-empty. */
  predicate NonBlank(line: string) {
    Strip(line) != ""
  }

  function CountNonBlank(lines: seq<string>): nat
    decreases |lines|
  {
    if |lines| == 0 then 0
    else (if NonBlank(lines[0]) then 1 else 0) + CountNonBlank(lines[1..])
  }

  /**
   The ND-JSON fallback: each line is stripped, blank lines are skipped,
   every other line is decoded on its own, and a line that fails to decode
   is skipped.
   */
  function ReadLines<R>(lines: seq<string>, decode: string -> Option<R>): (recs: seq<R>)
    ensures |recs| <= |lines|
    decreases |lines|
  {
    if |lines| == 0 then []
    else
      var rest := ReadLines(lines[1..], decode);
      var line := Strip(lines[0]);
      if line == "" then rest
      else match decode(line) {
        case None => rest
        case Some(rec) => [rec] + rest
      }
  }

  /** Every non-blank line of `lines` decodes. */
  predicate AllDecode<R>(lines: seq<string>, decode: string -> Option<R>) {
    forall i :: 0 <= i < |lines| && NonBlank(lines[i]) ==> decode(Strip(lines[i])).Some?
  }

  /**
   At most one record per non-blank line, and exactly one per non-blank
   line when every such line decodes.
   */
  lemma {:induction false} ReadLinesCount<R>(lines: seq<string>, decode: string -> Option<R>)
    ensures |ReadLines(lines, decode)| <= CountNonBlank(lines)
    ensures AllDecode(lines, decode) ==> |ReadLines(lines, decode)| == CountNonBlank(lines)
    decreases |lines|
  {
    if |lines| > 0 {
      ReadLinesCount(lines[1..], decode);
      if AllDecode(lines, decode) {
        assert AllDecode(lines[1..], decode) by {
          forall i | 0 <= i < |lines[1..]| && NonBlank(lines[1..][i])
            ensures decode(Strip(lines[1..][i])).Some?
          {
            assert lines[1..][i] == lines[i + 1];
          }
        }
      }
    }
  }

  /** Lines are read independently and in order: reading a concatenation concatenates the results. */
  lemma {:induction false} ReadLinesAppend<R>(a: seq<string>, b: seq<string>, decode: string -> Option<R>)
    ensures ReadLines(a + b, decode) == ReadLines(a, decode) + ReadLines(b, decode)
    decreases |a|
  {
    if |a| > 0 {
      assert (a + b)[0] == a[0];
      assert (a + b)[1..] == a[1..] + b;
      ReadLinesAppend(a[1..], b, decode);
    } else {
      assert a + b == b;
    }
  }

  /** Every record read is the decoding of one non-blank line. */
  lemma {:induction false} ReadLinesSources<R>(lines: seq<string>, decode: string -> Option<R>, k: nat)
    requires k < |ReadLines(lines, decode)|
    ensures exists i :: 0 <= i < |lines| && NonBlank(lines[i])
                        && decode(Strip(lines[i])) == Some(ReadLines(lines, decode)[k])
    decreases |lines|
  {
    var rest := ReadLines(lines[1..], decode);
    var line := Strip(lines[0]);
    var kept := line != "" && decode(line).Some?;
    assert ReadLines(lines, decode) == (if kept then [decode(line).value] + rest else rest);
    if kept && k == 0 {
      assert NonBlank(lines[0]);
    } else {
      var k' := if kept then k - 1 else k;
      assert ReadLines(lines, decode)[k] == rest[k'];
      ReadLinesSources(lines[1..], decode, k');
      var i :| 0 <= i < |lines[1..]| && NonBlank(lines[1..][i])
               && decode(Strip(lines[1..][i])) == Some(rest[k']);
      assert lines[1..][i] == lines[i + 1];
    }
  }

  /** The loop of `read_json_file`, appending one record per decodable line. */
  method ReadLinesLoop<R>(lines: seq<string>, decode: string -> Option<R>) returns (records: seq<R>)
    ensures records == ReadLines(lines, decode)
  {
    records := [];
    var i := 0;
    while i < |lines|
      invariant 0 <= i <= |lines|
      invariant records == ReadLines(lines[..i], decode)
    {
      var line := Strip(lines[i]);
      ReadLinesAppend(lines[..i], [lines[i]], decode);
      assert lines[..i + 1] == lines[..i] + [lines[i]];
      if line != "" {
        var parsed := decode(line);
        if parsed.Some? {
          records := records + [parsed.value];
        }
      }
      i := i + 1;
    }
    assert lines[..i] == lines;
  }

  /**
   `read_json_file`: the whole text is decoded as one document first; only
   when that fails are the lines decoded one by one.
   */
  function ReadJson<R>(text: string, decodeDoc: string -> Option<seq<R>>,
                       decodeLine: string -> Option<R>): (recs: seq<R>)
    ensures decodeDoc(text).Some? ==> recs == decodeDoc(text).value
    ensures decodeDoc(text).None? ==> recs == ReadLines(SplitLines(Universal(text)), decodeLine)
    ensures decodeDoc(text).None? ==> |recs| <= CountNonBlank(SplitLines(Universal(text)))
  {
    match decodeDoc(text)
    case Some(recs) => recs
    case None =>
      ReadLinesCount(SplitLines(Universal(text)), decodeLine);
      ReadLines(SplitLines(Universal(text)), decodeLine)
  }

  /** `{"a":1}`, `{bad}`, `{"a":2}` on three lines give two records when the document as a whole does not decode. */
  lemma ThreeLineExample<R>(decodeDoc: string -> Option<seq<R>>, decodeLine: string -> Option<R>, x: R, y: R)
    requires decodeDoc("{\"a\":1}" + "\n" + "{bad}" + "\n" + "{\"a\":2}") == None
    requires decodeLine("{\"a\":1}") == Some(x)
    requires decodeLine("{bad}") == None
    requires decodeLine("{\"a\":2}") == Some(y)
    ensures ReadJson("{\"a\":1}" + "\n" + "{bad}" + "\n" + "{\"a\":2}", decodeDoc, decodeLine) == [x, y]
  {
    var l1, l2, l3 := "{\"a\":1}", "{bad}", "{\"a\":2}";
    ExampleLines(l1, l2, l3);
    ExampleStrips(l1, l2, l3);
    ExampleRead(l1, l2, l3, decodeLine, x, y);
  }

  lemma ExampleStrips(l1: string, l2: string, l3: string)
    requires l1 == "{\"a\":1}" && l2 == "{bad}" && l3 == "{\"a\":2}"
    ensures Strip(l1) == l1 && Strip(l2) == l2 && Strip(l3) == l3
  {
  }

  lemma ExampleRead<R>(l1: string, l2: string, l3: string, decode: string -> Option<R>, x: R, y: R)
    requires l1 != "" && Strip(l1) == l1 && decode(l1) == Some(x)
    requires l2 != "" && Strip(l2) == l2 && decode(l2) == None
    requires l3 != "" && Strip(l3) == l3 && decode(l3) == Some(y)
    ensures ReadLines([l1, l2, l3], decode) == [x, y]
  {
    assert ReadLines([l3], decode) == [y] by {
      assert [l3][1..] == [];
    }
    assert ReadLines([l2, l3], decode) == [y] by {
      assert [l2, l3][1..] == [l3];
    }
    assert [l1, l2, l3][1..] == [l2, l3];
  }

  lemma ExampleLines(l1: string, l2: string, l3: string)
    requires '\n' !in l1 && '\n' !in l2 && '\n' !in l3
    requires '\r' !in l1 && '\r' !in l2 && '\r' !in l3
    ensures SplitLines(Universal(l1 + "\n" + l2 + "\n" + l3)) == [l1, l2, l3]
  {
    var text := l1 + "\n" + (l2 + "\n" + l3);
    assert text == l1 + "\n" + l2 + "\n" + l3;
    assert '\r' !in text by {
      assert '\r' !in l2 + "\n" + l3;
    }
    assert Universal(text) == text;
    SplitLinesCons(l2, l3);
    SplitLinesCons(l1, l2 + "\n" + l3);
  }

  /** `s` as written with Windows line endings: every '\n' becomes "\r\n". */
  function Crlf(s: string): string
    decreases |s|
  {
    if |s| == 0 then "" else (if s[0] == '\n' then "\r\n" else [s[0]]) + Crlf(s[1..])
  }

  /** `s` as written with old Mac line endings: every '\n' becomes a lone '\r'. */
  function CrOnly(s: string): string
    decreases |s|
  {
    if |s| == 0 then "" else [if s[0] == '\n' then '\r' else s[0]] + CrOnly(s[1..])
  }

  /** A file written with "\r\n" line endings reads back as the text that was written. */
  lemma {:induction false} UniversalReadsCrlf(s: string)
    requires '\r' !in s
    ensures Universal(Crlf(s)) == s
    decreases |s|
  {
    if |s| > 0 {
      UniversalReadsCrlf(s[1..]);
      var t := Crlf(s[1..]);
      if s[0] == '\n' {
        assert Crlf(s) == "\r\n" + t;
        assert ("\r\n" + t)[2..] == t;
      } else {
        assert Crlf(s) == [s[0]] + t;
        assert ([s[0]] + t)[1..] == t;
      }
    }
  }

  /** A file written with lone '\r' line endings reads back as the text that was written. */
  lemma {:induction false} UniversalReadsCrOnly(s: string)
    requires '\r' !in s
    ensures '\n' !in CrOnly(s)
    ensures Universal(CrOnly(s)) == s
    decreases |s|
  {
    if |s| > 0 {
      UniversalReadsCrOnly(s[1..]);
      var t := CrOnly(s[1..]);
      var c := if s[0] == '\n' then '\r' else s[0];
      assert CrOnly(s) == [c] + t;
      assert ([c] + t)[1..] == t;
      assert forall k :: 0 <= k < |[c] + t| ==> ([c] + t)[k] == if k == 0 then c else t[k - 1];
    }
  }

  /** `df.columns = [c.strip() for c in df.columns]`. */
  function StripColumns(cols: seq<string>): (stripped: seq<string>)
    ensures |stripped| == |cols|
    ensures forall i :: 0 <= i < |cols| ==> stripped[i] == Strip(cols[i])
    ensures forall i :: 0 <= i < |cols| ==> |stripped[i]| <= |cols[i]|
    ensures forall i :: 0 <= i < |cols| ==> |stripped[i]| > 0 ==> !IsSpace(stripped[i][0]) && !IsSpace(stripped[i][|stripped[i]| - 1])
  {
    seq(|cols|, i requires 0 <= i < |cols| => Strip(cols[i]))
  }

  /** Stripping column names a second time changes nothing. */
  lemma StripColumnsIdempotent(cols: seq<string>)
    ensures StripColumns(StripColumns(cols)) == StripColumns(cols)
  {
    forall i | 0 <= i < |cols| ensures Strip(Strip(cols[i])) == Strip(cols[i]) {
      StripIdempotent(cols[i]);
    }
  }
}
