/** The `headers` field of an inbound email: a blob of header lines split into
    (name, value) pairs (WebhookParser.cs, ParseInboundEmail). */
module Headers {
  import opened Wrappers
  import opened StringSplit

  /** Line breaks in the order the splitter tries them: CRLF before CR and LF. */
  const LineSeparators: seq<string> := ["\r\n", "\r", "\n"]
  const NameValueSeparator: seq<string> := [": "]

  /** KeyValuePair<string, string>; a null value is `None`. */
  datatype Header = Header(key: string, value: Option<string>)

  predicate IsLineBreak(c: char)
  {
    c == '\r' || c == '\n'
  }

  predicate BreakFree(s: string)
  {
    forall i :: 0 <= i < |s| ==> !IsLineBreak(s[i])
  }

  /** The text of `s` with every CR and LF removed. */
  function WithoutBreaks(s: string): string
  {
    if s == [] then "" else (if IsLineBreak(s[0]) then "" else [s[0]]) + WithoutBreaks(s[1..])
  }

  /** The header lines: the blob split on CRLF, CR or LF, empty lines dropped. */
  function Lines(blob: string): seq<string>
  {
    Split(blob, LineSeparators)
  }

  /** Each line followed by its own line break, `ts[i]` after `lines[i]`: a blob
      as a mail agent writes it, where CRLF, CR and LF may be mixed. */
  function Terminated(lines: seq<string>, ts: seq<string>): string
    requires |ts| == |lines|
  {
    if lines == [] then "" else lines[0] + ts[0] + Terminated(lines[1..], ts[1..])
  }

  /** Every terminator is one of the three line breaks. */
  predicate AreLineBreaks(ts: seq<string>)
  {
    forall i :: 0 <= i < |ts| ==> ts[i] in LineSeparators
  }

  /** A header line as the parser reads it. `None` is the IndexOutOfRangeException
      raised when the line splits into no piece at all. */
  function ParseHeaderLine(line: string): Option<Header>
  {
    var parts := Split(line, NameValueSeparator);
    if |parts| == 0 then None
    else Some(Header(parts[0], if |parts| >= 2 then Some(parts[1]) else None))
  }

  /** The Select(...).ToArray() over the lines: one pair per line, in order, or
      the exception of the first line that raises one. */
  function ParseHeaderLines(lines: seq<string>): (r: Option<seq<Header>>)
    ensures r.Some? <==> forall i :: 0 <= i < |lines| ==> ParseHeaderLine(lines[i]).Some?
    ensures r.Some? ==> |r.value| == |lines|
    ensures r.Some? ==> forall i :: 0 <= i < |lines| ==> Some(r.value[i]) == ParseHeaderLine(lines[i])
  {
    if lines == [] then Some([])
    else
      match ParseHeaderLine(lines[0])
      case None => None
      case Some(h) =>
        match ParseHeaderLines(lines[1..])
        case None => None
        case Some(hs) => Some([h] + hs)
  }

  function ParseHeaders(blob: string): Option<seq<Header>>
  {
    ParseHeaderLines(Lines(blob))
  }

  // ---------------------------------------------------------------------------
  // Lines

  /** Which line separator matches at the start of `s`. */
  lemma LineSeparatorAt(s: string)
    ensures SeparatorAt(s, LineSeparators) ==
      if StartsWith(s, "\r\n") then 2 else if s != [] && IsLineBreak(s[0]) then 1 else 0
  {
    var l1 := LineSeparators[1..];
    var l2 := l1[1..];
    assert l1 == ["\r", "\n"] && l2 == ["\n"] && l2[1..] == [];
    assert StartsWith(s, "\r") <==> s != [] && s[0] == '\r' by {
      if s != [] { assert s[..1] == [s[0]]; }
    }
    assert StartsWith(s, "\n") <==> s != [] && s[0] == '\n' by {
      if s != [] { assert s[..1] == [s[0]]; }
    }
    assert SeparatorAt(s, l2) == if StartsWith(s, "\n") then 1 else SeparatorAt(s, l2[1..]);
    assert SeparatorAt(s, l1) == if StartsWith(s, "\r") then 1 else SeparatorAt(s, l2);
    assert SeparatorAt(s, LineSeparators) == if StartsWith(s, "\r\n") then 2 else SeparatorAt(s, l1);
  }

  lemma {:induction false} PiecesBreakFree(s: string)
    ensures forall p :: p in Pieces(s, LineSeparators) ==> BreakFree(p)
    decreases |s|
  {
    if s != [] {
      LineSeparatorAt(s);
      var n := SeparatorAt(s, LineSeparators);
      if n > 0 {
        PiecesBreakFree(s[n..]);
      } else {
        PiecesBreakFree(s[1..]);
        var rest := Pieces(s[1..], LineSeparators);
        assert rest[0] in rest;
        assert BreakFree([s[0]] + rest[0]);
        forall p | p in Pieces(s, LineSeparators) ensures BreakFree(p) {
          if p != [s[0]] + rest[0] {
            assert p in rest[1..];
          }
        }
      }
    }
  }

  /** Every line is non-empty and contains neither CR nor LF. */
  lemma LinesAreBreakFree(blob: string)
    ensures forall i :: 0 <= i < |Lines(blob)| ==> Lines(blob)[i] != "" && BreakFree(Lines(blob)[i])
  {
    PiecesBreakFree(blob);
  }

  lemma {:induction false} ConcatPieces(s: string)
    ensures Concat(Pieces(s, LineSeparators)) == WithoutBreaks(s)
    decreases |s|
  {
    if s != [] {
      LineSeparatorAt(s);
      var n := SeparatorAt(s, LineSeparators);
      if n > 0 {
        ConcatPieces(s[n..]);
        var ps := Pieces(s, LineSeparators);
        assert ps == [""] + Pieces(s[n..], LineSeparators);
        assert ps[1..] == Pieces(s[n..], LineSeparators);
        if n == 2 {
          assert s[1..][1..] == s[2..];
          assert WithoutBreaks(s) == WithoutBreaks(s[1..]) == WithoutBreaks(s[2..]);
        }
      } else {
        ConcatPieces(s[1..]);
        var rest := Pieces(s[1..], LineSeparators);
        var ps := Pieces(s, LineSeparators);
        assert ps == [[s[0]] + rest[0]] + rest[1..];
        assert ps[1..] == rest[1..];
        assert Concat(rest) == rest[0] + Concat(rest[1..]);
        assert Concat(ps) == [s[0]] + rest[0] + Concat(rest[1..]);
      }
    }
  }

  /** The lines carry all the text of the blob, in order: only line breaks are
      lost. */
  lemma LinesKeepText(blob: string)
    ensures Concat(Lines(blob)) == WithoutBreaks(blob)
  {
    ConcatRemoveEmpty(Pieces(blob, LineSeparators));
    ConcatPieces(blob);
  }

  /** A line break followed by the start of the next line (or by nothing) is
      consumed whole, whichever of the three it is. */
  lemma BreakThenLine(t: string, tail: string)
    requires t in LineSeparators
    requires tail == [] || !IsLineBreak(tail[0])
    ensures Pieces(t + tail, LineSeparators) == [""] + Pieces(tail, LineSeparators)
  {
    var s := t + tail;
    LineSeparatorAt(s);
    assert s[0] == t[0];
    assert |t| == 2 ==> s[..2] == t;
    assert |t| == 1 && tail != [] ==> s[1] == tail[0];
    assert SeparatorAt(s, LineSeparators) == |t|;
    assert s[|t|..] == tail;
  }

  /** A break-free line at the head of the blob is the first piece. */
  lemma BreakFreeHead(k: string, rest: string)
    requires BreakFree(k)
    ensures Pieces(k + rest, LineSeparators) ==
      [k + Pieces(rest, LineSeparators)[0]] + Pieces(rest, LineSeparators)[1..]
  {
    forall i | 0 <= i < |k| ensures SeparatorAt((k + rest)[i..], LineSeparators) == 0 {
      LineSeparatorAt((k + rest)[i..]);
      assert (k + rest)[i..][0] == k[i];
    }
    PiecesOfPlainPrefix(k, rest, LineSeparators);
  }

  lemma TerminatedHead(lines: seq<string>, ts: seq<string>)
    requires |ts| == |lines| && lines != []
    requires forall i :: 0 <= i < |lines| ==> lines[i] != ""
    ensures Terminated(lines, ts) == lines[0] + (ts[0] + Terminated(lines[1..], ts[1..]))
    ensures var tail := Terminated(lines[1..], ts[1..]); tail == [] || tail[0] == lines[1][0]
  {
    var tail := Terminated(lines[1..], ts[1..]);
    if tail != [] {
      assert lines[1..] != [];
      assert tail == lines[1] + ts[1] + Terminated(lines[1..][1..], ts[1..][1..]);
    }
  }

  /** Splitting is the inverse of ending every line with a line break, each line
      with any of the three, mixed freely within one blob. */
  lemma {:induction false} LinesRoundTrip(lines: seq<string>, ts: seq<string>)
    requires |ts| == |lines| && AreLineBreaks(ts)
    requires forall i :: 0 <= i < |lines| ==> lines[i] != "" && BreakFree(lines[i])
    ensures Lines(Terminated(lines, ts)) == lines
  {
    if lines != [] {
      var k, t := lines[0], ts[0];
      var tail := Terminated(lines[1..], ts[1..]);
      TerminatedHead(lines, ts);
      assert ts[0] in LineSeparators;
      BreakThenLine(t, tail);
      BreakFreeHead(k, t + tail);
      var pr := Pieces(t + tail, LineSeparators);
      assert pr[0] == "" && pr[1..] == Pieces(tail, LineSeparators);
      assert k + pr[0] == k;
      var ps := Pieces(Terminated(lines, ts), LineSeparators);
      assert ps == [k] + Pieces(tail, LineSeparators);
      assert AreLineBreaks(ts[1..]) by {
        forall i | 0 <= i < |ts[1..]| ensures ts[1..][i] in LineSeparators {
          assert ts[1..][i] == ts[i + 1];
        }
      }
      LinesRoundTrip(lines[1..], ts[1..]);
      assert RemoveEmpty(ps) == [k] + RemoveEmpty(Pieces(tail, LineSeparators));
    }
  }

  /** A blob whose three lines end with CRLF, LF and CR in turn splits into exactly
      those three lines. */
  lemma MixedBreaksExample()
    ensures Lines("Subject: a\r\nTo: b\nFrom: c\r") == ["Subject: a", "To: b", "From: c"]
  {
    var lines := ["Subject: a", "To: b", "From: c"];
    var ts := ["\r\n", "\n", "\r"];
    assert BreakFree(lines[0]) && BreakFree(lines[1]) && BreakFree(lines[2]);
    assert Terminated(lines, ts) == "Subject: a\r\nTo: b\nFrom: c\r" by {
      assert lines[1..][1..][1..] == [] && ts[1..][1..][1..] == [];
    }
    LinesRoundTrip(lines, ts);
  }

  // ---------------------------------------------------------------------------
  // Header lines

  /** No ": " occurs in `s`. */
  predicate NoSeparator(s: string)
  {
    forall i :: 0 <= i < |s| - 1 ==> !(s[i] == ':' && s[i + 1] == ' ')
  }

  /** `s` is made of ": " repeated, and of nothing else. */
  predicate IsSeparatorRun(s: string)
    decreases |s|
  {
    s == [] || (StartsWith(s, ": ") && IsSeparatorRun(s[2..]))
  }

  lemma NameValueSeparatorAt(s: string)
    ensures SeparatorAt(s, NameValueSeparator) == if StartsWith(s, ": ") then 2 else 0
  {
  }

  /** The pieces of `k + rest` when `k` holds no ": " and the separator, if any,
      starts right after it. */
  lemma SplitAfterName(k: string, rest: string)
    requires NoSeparator(k)
    requires k != [] && k[|k| - 1] == ':' ==> !StartsWith(rest, " ")
    ensures Pieces(k + rest, NameValueSeparator) ==
      [k + Pieces(rest, NameValueSeparator)[0]] + Pieces(rest, NameValueSeparator)[1..]
  {
    forall i | 0 <= i < |k| ensures SeparatorAt((k + rest)[i..], NameValueSeparator) == 0 {
      var x := (k + rest)[i..];
      NameValueSeparatorAt(x);
      if |x| >= 2 {
        assert x[..2] == [x[0], x[1]];
        assert x[0] == k[i];
        if i < |k| - 1 {
          assert x[1] == k[i + 1];
        } else {
          assert x[1] == rest[0];
          assert rest[..1] == [rest[0]];
        }
      }
    }
    PiecesOfPlainPrefix(k, rest, NameValueSeparator);
  }

  /** A line without ": " is a header name with a null value. */
  lemma HeaderWithoutSeparator(line: string)
    requires line != "" && NoSeparator(line)
    ensures ParseHeaderLine(line) == Some(Header(line, None))
  {
    SplitAfterName(line, "");
    assert line + "" == line;
    assert Pieces(line, NameValueSeparator) == [line];
  }

  /** The name is the text before the first ": " and the value is the first
      non-empty piece after it, null when there is none: any text after a
      further ": " is dropped. */
  lemma HeaderNameAndValue(k: string, rest: string)
    requires k != "" && NoSeparator(k)
    ensures var after := Split(rest, NameValueSeparator);
      ParseHeaderLine(k + ": " + rest) == Some(Header(k, if after == [] then None else Some(after[0])))
  {
    var tail := ": " + rest;
    assert k + ": " + rest == k + tail;
    assert tail[..1] == ":";
    SplitAfterName(k, tail);
    assert tail[2..] == rest;
    var pt := Pieces(tail, NameValueSeparator);
    assert pt == [""] + Pieces(rest, NameValueSeparator);
    assert pt[0] == "" && pt[1..] == Pieces(rest, NameValueSeparator);
    assert k + pt[0] == k;
    assert Pieces(k + tail, NameValueSeparator) == [k] + Pieces(rest, NameValueSeparator);
  }

  /** "Name: value" with no further ": " gives exactly that pair. */
  lemma HeaderNameValue(k: string, v: string)
    requires k != "" && NoSeparator(k)
    requires v != "" && NoSeparator(v)
    ensures ParseHeaderLine(k + ": " + v) == Some(Header(k, Some(v)))
  {
    HeaderNameAndValue(k, v);
    HeaderWithoutSeparator(v);
  }

  /** "Name: value: more" keeps only "value". */
  lemma HeaderValueTruncated(k: string, v: string, w: string)
    requires k != "" && NoSeparator(k)
    requires v != "" && NoSeparator(v)
    ensures ParseHeaderLine(k + ": " + v + ": " + w) == Some(Header(k, Some(v)))
  {
    var rest := v + ": " + w;
    assert k + ": " + v + ": " + w == k + ": " + rest;
    HeaderNameAndValue(k, rest);
    HeaderNameAndValue(v, w);
  }

  lemma {:induction false} PiecesAllEmpty(s: string)
    ensures RemoveEmpty(Pieces(s, NameValueSeparator)) == [] <==> IsSeparatorRun(s)
    decreases |s|
  {
    if s != [] {
      NameValueSeparatorAt(s);
      if StartsWith(s, ": ") {
        PiecesAllEmpty(s[2..]);
        assert Pieces(s, NameValueSeparator) == [""] + Pieces(s[2..], NameValueSeparator);
      } else {
        var rest := Pieces(s[1..], NameValueSeparator);
        assert Pieces(s, NameValueSeparator)[0] == [s[0]] + rest[0];
      }
    }
  }

  /** A line raises IndexOutOfRangeException exactly when it is made of ": "
      repeated, nothing else (": " itself, for one). */
  lemma HeaderLineFails(line: string)
    requires line != ""
    ensures ParseHeaderLine(line).None? <==> IsSeparatorRun(line)
  {
    PiecesAllEmpty(line);
  }

  // ---------------------------------------------------------------------------
  // The header blob

  /** A blob of well-formed header lines, each ended by CRLF, CR or LF (mixed
      freely), gives one pair per line, in order. */
  lemma HeadersOfTerminatedLines(lines: seq<string>, ts: seq<string>)
    requires |ts| == |lines| && AreLineBreaks(ts)
    requires forall i :: 0 <= i < |lines| ==> lines[i] != "" && BreakFree(lines[i]) && !IsSeparatorRun(lines[i])
    ensures ParseHeaders(Terminated(lines, ts)).Some?
    ensures |ParseHeaders(Terminated(lines, ts)).value| == |lines|
    ensures forall i :: 0 <= i < |lines| ==> Some(ParseHeaders(Terminated(lines, ts)).value[i]) == ParseHeaderLine(lines[i])
  {
    LinesRoundTrip(lines, ts);
    forall i | 0 <= i < |lines| ensures ParseHeaderLine(lines[i]).Some? {
      HeaderLineFails(lines[i]);
    }
  }

  /** A line of the unit test's header blob: an empty-valued header keeps its
      colon in the name and has a null value. */
  lemma EmptyHeaderExample()
    ensures ParseHeaderLine("X-MS-Has-Attach:") == Some(Header("X-MS-Has-Attach:", None))
  {
    var line := "X-MS-Has-Attach:";
    assert NoSeparator(line) by {
      forall i | 0 <= i < |line| - 1 ensures !(line[i] == ':' && line[i + 1] == ' ') {
      }
    }
    HeaderWithoutSeparator(line);
  }

  /** Another line of that blob: "Subject: Test #1". */
  lemma SubjectHeaderExample()
    ensures ParseHeaderLine("Subject: Test #1") == Some(Header("Subject", Some("Test #1")))
  {
    var k, v := "Subject", "Test #1";
    assert NoSeparator(k) by {
      forall i | 0 <= i < |k| - 1 ensures !(k[i] == ':' && k[i + 1] == ' ') {
      }
    }
    assert NoSeparator(v) by {
      forall i | 0 <= i < |v| - 1 ensures !(v[i] == ':' && v[i + 1] == ' ') {
      }
    }
    assert "Subject: Test #1" == k + ": " + v;
    HeaderNameValue(k, v);
  }
}
