/** The human-readable `versions.txt` written after every recorded version
    (src/main.rs:140-151): a header line naming the asset, then one line per record
    in stored order, each line ended by the newline `writeln!` adds. The file is
    modelled as its text; a parser reads the text back to show nothing is lost. */
module TextOutput {
  import opened Wrappers
  import opened Decimal
  import opened VersionStore

  const HeaderPrefix: string := "Versions of: "
  const VersionLabel: string := "Version: "
  const DateLabel: string := ", Date: "

  function HeaderLine(assetid: nat): string {
    HeaderPrefix + ToDecimal(assetid)
  }

  function RecordLine(v: Version): string {
    VersionLabel + ToDecimal(v.version) + DateLabel + v.date
  }

  /** The lines the `for` loop over the records writes, one per record, in order. */
  function RecordLines(vs: seq<Version>): (lines: seq<string>)
    ensures |lines| == |vs|
    ensures forall i :: 0 <= i < |vs| ==> lines[i] == RecordLine(vs[i])
  {
    if vs == [] then [] else RecordLines(vs[..|vs| - 1]) + [RecordLine(vs[|vs| - 1])]
  }

  /** Every line of the file: the header, then the record lines. */
  function RenderLines(assetid: nat, vs: seq<Version>): seq<string> {
    [HeaderLine(assetid)] + RecordLines(vs)
  }

  /** Lines written with `writeln!`: each followed by a newline. */
  function Text(lines: seq<string>): string {
    if lines == [] then "" else lines[0] + "\n" + Text(lines[1..])
  }

  /** The whole content of `versions.txt` for the collection `(assetid, vs)`. */
  function FileContents(assetid: nat, vs: seq<Version>): string {
    Text(RenderLines(assetid, vs))
  }

  /** The file has one line more than there are records: the header first, then the
      record lines in stored order. */
  lemma RenderLinesShape(assetid: nat, vs: seq<Version>)
    ensures var lines := RenderLines(assetid, vs);
      |lines| == |vs| + 1 &&
      lines[0] == "Versions of: " + ToDecimal(assetid) &&
      forall i :: 0 <= i < |vs| ==>
        lines[i + 1] == "Version: " + ToDecimal(vs[i].version) + ", Date: " + vs[i].date
  {
    var lines := RenderLines(assetid, vs);
    assert HeaderPrefix == "Versions of: " && VersionLabel == "Version: " && DateLabel == ", Date: ";
    forall i | 0 <= i < |vs|
      ensures lines[i + 1] == "Version: " + ToDecimal(vs[i].version) + ", Date: " + vs[i].date
    {
      assert lines[i + 1] == RecordLine(vs[i]);
    }
  }

  // ----- reading the text back -----

  predicate NoNewline(s: string) {
    forall i :: 0 <= i < |s| ==> s[i] != '\n'
  }

  /** The index of the first newline in `s`, or `|s|` if there is none. */
  function FirstNewline(s: string): (i: nat)
    ensures i <= |s| && NoNewline(s[..i])
    ensures i < |s| ==> s[i] == '\n'
  {
    if s == [] || s[0] == '\n' then 0
    else
      var i := 1 + FirstNewline(s[1..]);
      assert s[..i] == [s[0]] + s[1..][..i - 1];
      i
  }

  /** Splits newline-terminated text into its lines; text whose last line has no
      newline is not of that form. */
  function SplitLines(s: string): Option<seq<string>>
    decreases |s|
  {
    if s == [] then Some([])
    else
      var i := FirstNewline(s);
      if i == |s| then None
      else
        match SplitLines(s[i + 1..])
        case None => None
        case Some(rest) => Some([s[..i]] + rest)
  }

  function ParseHeader(line: string): Option<nat> {
    var n := |HeaderPrefix|;
    if |line| <= n || line[..n] != HeaderPrefix || !AllDigits(line[n..]) then None
    else Some(ValueOf(line[n..]))
  }

  function ParseRecordLine(line: string): Option<Version> {
    var n := |VersionLabel|;
    if |line| < n || line[..n] != VersionLabel then None
    else
      var rest := line[n..];
      var d := LeadingDigits(rest);
      var after := rest[d..];
      var m := |DateLabel|;
      if d == 0 || |after| < m || after[..m] != DateLabel then None
      else Some(Version(ValueOf(rest[..d]), after[m..]))
  }

  function ParseRecordLines(lines: seq<string>): Option<seq<Version>> {
    if lines == [] then Some([])
    else
      match (ParseRecordLine(lines[0]), ParseRecordLines(lines[1..]))
      case (Some(v), Some(vs)) => Some([v] + vs)
      case _ => None
  }

  /** Reads a `versions.txt` text back into the asset id and the records. */
  function ParseFile(text: string): Option<(nat, seq<Version>)> {
    match SplitLines(text)
    case None => None
    case Some(lines) =>
      if lines == [] then None
      else
        match (ParseHeader(lines[0]), ParseRecordLines(lines[1..]))
        case (Some(id), Some(vs)) => Some((id, vs))
        case _ => None
  }

  // ----- round trips -----

  lemma FirstNewlineOfLine(line: string, rest: string)
    requires NoNewline(line)
    ensures FirstNewline(line + "\n" + rest) == |line|
  {
    var s := line + "\n" + rest;
    assert forall k :: 0 <= k < |line| ==> s[k] == line[k];
    assert s[|line|] == '\n';
  }

  lemma {:induction false} SplitText(lines: seq<string>)
    requires forall i :: 0 <= i < |lines| ==> NoNewline(lines[i])
    ensures SplitLines(Text(lines)) == Some(lines)
  {
    if lines != [] {
      var s := Text(lines);
      var l := lines[0];
      var rest := Text(lines[1..]);
      FirstNewlineOfLine(l, rest);
      assert s[..|l|] == l;
      assert s[|l| + 1..] == rest;
      SplitText(lines[1..]);
      assert [l] + lines[1..] == lines;
    }
  }

  lemma HeaderRoundTrip(assetid: nat)
    ensures ParseHeader(HeaderLine(assetid)) == Some(assetid)
  {
    var line := HeaderLine(assetid);
    assert line[..|HeaderPrefix|] == HeaderPrefix;
    assert line[|HeaderPrefix|..] == ToDecimal(assetid);
    ValueOfToDecimal(assetid);
  }

  lemma RecordLineRoundTrip(v: Version)
    ensures ParseRecordLine(RecordLine(v)) == Some(v)
  {
    var line := RecordLine(v);
    var digits := ToDecimal(v.version);
    var n := |VersionLabel|;
    assert line[..n] == VersionLabel;
    var rest := line[n..];
    assert rest == digits + (DateLabel + v.date);
    LeadingDigitsOfDecimal(digits, DateLabel + v.date);
    assert rest[..|digits|] == digits;
    assert rest[|digits|..] == DateLabel + v.date;
    ValueOfToDecimal(v.version);
  }

  lemma {:induction false} RecordLinesRoundTrip(vs: seq<Version>)
    ensures ParseRecordLines(RecordLines(vs)) == Some(vs)
  {
    if vs != [] {
      var lines := RecordLines(vs);
      RecordLineRoundTrip(vs[0]);
      RecordLinesRoundTrip(vs[1..]);
      assert lines[1..] == RecordLines(vs[1..]);
      assert [vs[0]] + vs[1..] == vs;
    }
  }

  lemma LinesHaveNoNewline(assetid: nat, vs: seq<Version>)
    requires forall i :: 0 <= i < |vs| ==> NoNewline(vs[i].date)
    ensures forall i :: 0 <= i < |RenderLines(assetid, vs)| ==> NoNewline(RenderLines(assetid, vs)[i])
  {
    var lines := RenderLines(assetid, vs);
    forall i | 0 <= i < |lines| ensures NoNewline(lines[i]) {
      if i > 0 {
        var v := vs[i - 1];
        assert lines[i] == VersionLabel + ToDecimal(v.version) + DateLabel + v.date;
      }
    }
  }

  /** What `versions.txt` holds determines the collection it was written from, as long as
      no date contains a newline (which an HTTP header value cannot). Writing the same
      collection twice therefore writes the same text, and different collections never
      produce the same text. */
  lemma FileRoundTrip(assetid: nat, vs: seq<Version>)
    requires forall i :: 0 <= i < |vs| ==> NoNewline(vs[i].date)
    ensures ParseFile(FileContents(assetid, vs)) == Some((assetid, vs))
  {
    var lines := RenderLines(assetid, vs);
    LinesHaveNoNewline(assetid, vs);
    SplitText(lines);
    HeaderRoundTrip(assetid);
    assert lines[1..] == RecordLines(vs);
    RecordLinesRoundTrip(vs);
  }
}
