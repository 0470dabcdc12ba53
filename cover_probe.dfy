/**
 * `getAudioFileCoverFormat`: the codec of an audio file's embedded cover,
 * read from the text `ffprobe -show_entries stream=codec_name` prints. The
 * probe itself is an input (whether the path is a regular file, the exit
 * status, the standard output); the model is the line scanner over
 * `[STREAM]` ... `[/STREAM]` sections.
 */
module CoverProbe {
  import opened PyStr

  /** What running ffprobe on one audio path gave. */
  datatype ProbeRun = ProbeRun(isFile: bool, status: int, stdout: string)

  /** The scanner's two variables, `in_stream_section` and `codec_name`. */
  datatype Scan = Scan(inSection: bool, codec: string)

  const StartTag := "[STREAM]"
  const EndTag := "[/STREAM]"
  const CodecKey := "codec_name="

  /** A character of the class `[a-z\-_]`. */
  predicate IsCodecChar(c: char) {
    ('a' <= c <= 'z') || c == '-' || c == '_'
  }

  predicate IsCodecText(s: string) {
    forall k :: 0 <= k < |s| ==> IsCodecChar(s[k])
  }

  /** The longest prefix of `s` made of `[a-z\-_]` characters (what the greedy `+` takes). */
  function CodecRun(s: string): (r: string)
    ensures |r| <= |s| && r == s[..|r|]
    ensures IsCodecText(r)
    ensures |r| == |s| || !IsCodecChar(s[|r|])
  {
    if |s| == 0 || !IsCodecChar(s[0]) then ""
    else [s[0]] + CodecRun(s[1..])
  }

  /**
   * `re.search(r"^codec_name=([a-z\-_]+)", line)`: when the line starts with
   * `codec_name=` followed by at least one character of the class, the
   * captured group is the whole run of such characters; otherwise no match.
   */
  function CodecMatch(line: string): (r: Option<string>)
    ensures r.Some? <==> CodecKey <= line && |line| > |CodecKey| && IsCodecChar(line[|CodecKey|])
    ensures r.Some? ==> r.value != "" && IsCodecText(r.value) && CodecKey + r.value <= line
    ensures r.Some? ==> |CodecKey| + |r.value| == |line| || !IsCodecChar(line[|CodecKey| + |r.value|])
  {
    if CodecKey <= line then
      var rest := line[|CodecKey|..];
      var run := CodecRun(rest);
      assert line == CodecKey + rest;
      assert CodecKey + run == line[..|CodecKey| + |run|];
      if run == "" then None else Some(run)
    else None
  }

  /** One iteration of the scanner's loop. */
  function ScanLine(st: Scan, line: string): Scan {
    if Contains(line, StartTag) then Scan(true, "")
    else if Contains(line, EndTag) && st.inSection then Scan(false, st.codec)
    else if st.inSection then
      match CodecMatch(line)
      case Some(c) => Scan(st.inSection, c)
      case None => st
    else st
  }

  /** The scanner's loop over a sequence of lines. */
  function ScanLines(st: Scan, lines: seq<string>): Scan
    decreases lines
  {
    if lines == [] then st else ScanLines(ScanLine(st, lines[0]), lines[1..])
  }

  /**
   * The value `getAudioFileCoverFormat` returns: "" when the path is not a
   * regular file or ffprobe failed, and otherwise `codec_name` after
   * scanning the output line by line.
   */
  function CoverCodec(p: ProbeRun): string {
    if !p.isFile || p.status != 0 then ""
    else ScanLines(Scan(false, ""), Split(p.stdout, '\n')).codec
  }

  /** `getAudioFileCoverFormat(audio_file)`, with its loop. */
  method GetAudioFileCoverFormat(p: ProbeRun) returns (codecName: string)
    ensures codecName == CoverCodec(p)
  {
    if p.isFile {
      var inStreamSection := false;
      codecName := "";
      if p.status == 0 {
        var lines := Split(p.stdout, '\n');
        var i := 0;
        while i < |lines|
          invariant 0 <= i <= |lines|
          invariant ScanLines(Scan(false, ""), lines) == ScanLines(Scan(inStreamSection, codecName), lines[i..])
        {
          var line := lines[i];
          assert lines[i..][1..] == lines[i + 1..];
          if Contains(line, StartTag) {
            inStreamSection := true;
            codecName := "";
          } else if Contains(line, EndTag) && inStreamSection {
            inStreamSection := false;
          } else if inStreamSection {
            var m := CodecMatch(line);
            if m.Some? {
              codecName := m.value;
            }
          }
          i := i + 1;
        }
        assert lines[|lines|..] == [];
      } else {
        codecName := "";
      }
    } else {
      codecName := "";
    }
  }

  /** Scanning two blocks of lines is scanning the first, then the second. */
  lemma {:induction false} ScanLinesAppend(st: Scan, a: seq<string>, b: seq<string>)
    ensures ScanLines(st, a + b) == ScanLines(ScanLines(st, a), b)
    decreases a
  {
    if a != [] {
      assert (a + b)[1..] == a[1..] + b;
      ScanLinesAppend(ScanLine(st, a[0]), a[1..], b);
    } else {
      assert a + b == b;
    }
  }

  /** The codec the scanner holds is always "" or a run of `[a-z\-_]` characters. */
  lemma {:induction false} ScanKeepsCodecText(st: Scan, lines: seq<string>)
    requires IsCodecText(st.codec)
    ensures IsCodecText(ScanLines(st, lines).codec)
    decreases lines
  {
    if lines != [] {
      ScanKeepsCodecText(ScanLine(st, lines[0]), lines[1..]);
    }
  }

  /** The returned cover format is "" or a nonempty run of `[a-z\-_]`: digits stop it, so "h264" gives "h". */
  lemma CoverCodecIsCodecText(p: ProbeRun)
    ensures IsCodecText(CoverCodec(p))
  {
    if p.isFile && p.status == 0 {
      ScanKeepsCodecText(Scan(false, ""), Split(p.stdout, '\n'));
    }
  }

  /** A line containing `[STREAM]` forgets everything before it: the result depends only on the lines after it. */
  lemma StartTagResets(st: Scan, lines: seq<string>, k: int)
    requires 0 <= k < |lines| && Contains(lines[k], StartTag)
    ensures ScanLines(st, lines) == ScanLines(Scan(true, ""), lines[k + 1..])
  {
    assert lines == lines[..k] + [lines[k]] + lines[k + 1..];
    ScanLinesAppend(st, lines[..k] + [lines[k]], lines[k + 1..]);
    ScanLinesAppend(st, lines[..k], [lines[k]]);
    assert [lines[k]][1..] == [];
  }

  /** Outside a section, nothing but a `[STREAM]` line changes the scanner: `codec_name=` lines there are ignored. */
  lemma {:induction false} OutsideSectionIgnored(c: string, lines: seq<string>)
    requires forall k :: 0 <= k < |lines| ==> !Contains(lines[k], StartTag)
    ensures ScanLines(Scan(false, c), lines) == Scan(false, c)
  {
    if lines != [] {
      OutsideSectionIgnored(c, lines[1..]);
    }
  }

  /**
   * Inside the last section, which starts at line `i`: the scanner ends with
   * the codec of the last matching line before the first `[/STREAM]` line
   * `e` (or `c` when there is none).
   */
  lemma {:induction false} InsideLastSection(c: string, lines: seq<string>, i: int, e: int)
    requires 0 <= i <= e <= |lines|
    requires forall j :: i <= j < |lines| ==> !Contains(lines[j], StartTag)
    requires e < |lines| ==> Contains(lines[e], EndTag)
    requires forall j :: i <= j < e ==> !Contains(lines[j], EndTag)
    ensures ScanLines(Scan(true, c), lines[i..]).codec == LastCodec(c, lines[i..e])
    decreases e - i
  {
    if i == e {
      if i < |lines| {
        assert lines[i..][1..] == lines[i + 1..];
        OutsideAfter(c, lines, i + 1);
      }
    } else {
      var st := ScanLine(Scan(true, c), lines[i]);
      var c' := Pick(c, lines[i]);
      assert st == Scan(true, c');
      assert lines[i..][1..] == lines[i + 1..];
      assert lines[i..e][1..] == lines[i + 1..e];
      LastCodecCons(c, lines[i..e]);
      InsideLastSection(c', lines, i + 1, e);
    }
  }

  /** OutsideSectionIgnored, for the lines from `i` on. */
  lemma OutsideAfter(c: string, lines: seq<string>, i: int)
    requires 0 <= i <= |lines|
    requires forall j :: i <= j < |lines| ==> !Contains(lines[j], StartTag)
    ensures ScanLines(Scan(false, c), lines[i..]) == Scan(false, c)
  {
    var rest := lines[i..];
    forall j | 0 <= j < |rest|
      ensures !Contains(rest[j], StartTag)
    {
      assert rest[j] == lines[i + j];
    }
    OutsideSectionIgnored(c, rest);
  }

  /** The codec a line inside a section leaves behind: its match, or `c` when it does not match. */
  function Pick(c: string, line: string): string {
    match CodecMatch(line)
    case Some(v) => v
    case None => c
  }

  /** The value of the last line of `lines` that matches `codec_name=...`, or `c` when none does. */
  function LastCodec(c: string, lines: seq<string>): string {
    if lines == [] then c
    else if CodecMatch(lines[|lines| - 1]).Some? then CodecMatch(lines[|lines| - 1]).value
    else LastCodec(c, lines[..|lines| - 1])
  }

  /** LastCodec reads from the front as a left fold too. */
  lemma {:induction false} LastCodecCons(c: string, lines: seq<string>)
    requires lines != []
    ensures LastCodec(c, lines) == LastCodec(Pick(c, lines[0]), lines[1..])
  {
    if |lines| > 1 {
      var init := lines[..|lines| - 1];
      var tail := lines[1..];
      assert tail[|tail| - 1] == lines[|lines| - 1];
      assert tail[..|tail| - 1] == init[1..];
      assert init[0] == lines[0];
      LastCodecCons(c, init);
    }
  }

  /**
   * When the output has a `[STREAM]` line, the result is the last
   * `codec_name=` value inside the last section, i.e. between the last `[STREAM]` line `k` and the first
   * `[/STREAM]` line `e` after it, and "" when that section has none.
   */
  lemma ProbeResult(stdout: string, k: int, e: int)
    requires var lines := Split(stdout, '\n');
      && 0 <= k < e <= |lines|
      && Contains(lines[k], StartTag)
      && (forall j :: k < j < |lines| ==> !Contains(lines[j], StartTag))
      && (e < |lines| ==> Contains(lines[e], EndTag))
      && (forall j :: k < j < e ==> !Contains(lines[j], EndTag))
    ensures CoverCodec(ProbeRun(true, 0, stdout)) == LastCodec("", Split(stdout, '\n')[k + 1..e])
  {
    var lines := Split(stdout, '\n');
    StartTagResets(Scan(false, ""), lines, k);
    InsideLastSection("", lines, k + 1, e);
  }

  /** Output with no `[STREAM]` line at all gives "". */
  lemma ProbeWithoutSection(stdout: string)
    requires forall j :: 0 <= j < |Split(stdout, '\n')| ==> !Contains(Split(stdout, '\n')[j], StartTag)
    ensures CoverCodec(ProbeRun(true, 0, stdout)) == ""
  {
    var lines := Split(stdout, '\n');
    OutsideSectionIgnored("", lines);
  }

  /** A missing file or a failed ffprobe gives "", whatever was printed. */
  lemma ProbeFailure(p: ProbeRun)
    requires !p.isFile || p.status != 0
    ensures CoverCodec(p) == ""
  {
  }

  /** The regular expression stops at the first digit: "codec_name=h264" captures "h". */
  lemma DigitStopsCodec()
    ensures CodecMatch("codec_name=h264") == Some("h")
  {
    var line := "codec_name=h264";
    assert line[|CodecKey|..] == "h264";
    assert CodecRun("h264") == "h" by {
      assert CodecRun("264") == "";
    }
  }
}
