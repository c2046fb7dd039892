/** The parsing part of `ShellPortService.loadLocalPorts`
    (PortService.swift): the output of `port version` and of
    `port installed requested and active`, both taken as given text,
    become the list of installed ports. */
module Inventory {
  import opened Wrappers
  import opened Text
  import opened VersionPattern
  import opened Ports

  /** Name of the record that stands for MacPorts itself. */
  const SelfName: string := "macports"

  /** The record for MacPorts' own version: present exactly when the
      `port version` text holds a digit. */
  function SelfRecord(versionText: string): (r: seq<Port>)
    ensures |r| <= 1
    ensures |r| == 0 <==> forall k :: 0 <= k < |versionText| ==> !IsDigit(versionText[k])
    ensures |r| == 1 ==> r[0].name == SelfName && IsToken(r[0].version) && r[0].latestVersion.None?
  {
    match FirstMatch(versionText)
    case Some(v) => [Port(SelfName, v, None)]
    case None => []
  }

  /** One line of the installed listing: a record when the line has more
      than two fields, the first field is a whole name and the second holds
      a version token; nothing otherwise. */
  function ParseLine(line: string): (r: Option<Port>)
    ensures r.Some? ==>
              && |Fields(line)| >= 3
              && r.value.name == Fields(line)[0]
              && IsName(r.value.name)
              && FirstMatch(Fields(line)[1]) == Some(r.value.version)
              && IsToken(r.value.version)
              && r.value.latestVersion.None?
    ensures r.None? <==>
              || |Fields(line)| < 3
              || !IsName(Fields(line)[0])
              || forall k :: 0 <= k < |Fields(line)[1]| ==> !IsDigit(Fields(line)[1][k])
  {
    var parts := Fields(line);
    if |parts| > 2 then
      var namePart := parts[0];
      var versionPart := parts[1];
      match FirstMatch(versionPart)
      case Some(v) => if MatchesName(namePart) then Some(Port(namePart, v, None)) else None
      case None => None
    else
      None
  }

  /** A line built from fields joined by single spaces: it yields the
      record of its first two fields when there are at least three, the
      first is a name and the second holds a version token. */
  lemma ParseJoinedLine(fields: seq<string>)
    requires forall k :: 0 <= k < |fields| ==> |fields[k]| > 0
    requires forall k, j :: 0 <= k < |fields| && 0 <= j < |fields[k]| ==> fields[k][j] != ' '
    ensures |fields| >= 3 && IsName(fields[0]) && FirstMatch(fields[1]).Some? ==>
              ParseLine(Join(fields, ' ')) == Some(Port(fields[0], FirstMatch(fields[1]).value, None))
    ensures |fields| < 3 ==> ParseLine(Join(fields, ' ')) == None
  {
    SplitJoin(fields, ' ', IsSpace);
  }

  /** The records of a list of lines, in line order. */
  function ParseLines(lines: seq<string>): (ports: seq<Port>)
    ensures |ports| <= |lines|
    ensures forall j :: 0 <= j < |ports| ==>
              IsName(ports[j].name) && IsToken(ports[j].version) && ports[j].latestVersion.None?
  {
    if |lines| == 0 then []
    else ParseLines(lines[..|lines| - 1]) + Record(ParseLine(lines[|lines| - 1]))
  }

  /** A parsed line as zero or one records. */
  function Record(r: Option<Port>): seq<Port> {
    match r
    case Some(p) => [p]
    case None => []
  }

  /** `loadLocalPorts` once both commands have answered: the MacPorts
      record, then one record per accepted line of the listing. */
  function Parse(versionText: string, installedText: string): (ports: seq<Port>)
    ensures |ports| <= 1 + |Lines(installedText)|
    ensures forall j :: 0 <= j < |ports| ==> IsToken(ports[j].version) && ports[j].latestVersion.None?
    ensures forall j :: 0 <= j < |ports| ==> ports[j].name == SelfName || IsName(ports[j].name)
  {
    SelfRecord(versionText) + ParseLines(Lines(installedText))
  }

  /** `idx` gives, for each record of `ports`, the index of the line of
      `lines` it came from: distinct lines in increasing order, covering
      every line that yields a record. */
  ghost predicate Traced(lines: seq<string>, ports: seq<Port>, idx: seq<nat>) {
    && |idx| == |ports|
    && FromLines(lines, ports, idx)
    && Increasing(idx)
    && Covers(lines, idx)
  }

  ghost predicate FromLines(lines: seq<string>, ports: seq<Port>, idx: seq<nat>)
    requires |idx| == |ports|
  {
    forall j :: 0 <= j < |idx| ==> idx[j] < |lines| && ParseLine(lines[idx[j]]) == Some(ports[j])
  }

  ghost predicate Increasing(idx: seq<nat>) {
    forall j, j' :: 0 <= j < j' < |idx| ==> idx[j] < idx[j']
  }

  ghost predicate Covers(lines: seq<string>, idx: seq<nat>) {
    forall k :: 0 <= k < |lines| && ParseLine(lines[k]).Some? ==> k in idx
  }

  /** The line each record of `ParseLines(lines)` came from. */
  function Origins(lines: seq<string>): seq<nat> {
    if |lines| == 0 then []
    else
      var n := |lines| - 1;
      Origins(lines[..n]) + (if ParseLine(lines[n]).Some? then [n] else [])
  }

  /** The records follow the lines, one per accepted line, and rejected
      lines add nothing. */
  lemma {:induction false} ParseLinesTraced(lines: seq<string>)
    ensures Traced(lines, ParseLines(lines), Origins(lines))
    decreases |lines|
  {
    if |lines| > 0 {
      var n := |lines| - 1;
      ParseLinesTraced(lines[..n]);
      TracedStep(lines[..n], lines[n], ParseLines(lines[..n]), Origins(lines[..n]));
      assert lines[..n] + [lines[n]] == lines;
    }
  }

  /** Appending one line extends a trace. */
  lemma TracedStep(front: seq<string>, line: string, ports: seq<Port>, idx: seq<nat>)
    requires Traced(front, ports, idx)
    ensures Traced(front + [line], ports + Record(ParseLine(line)),
                   idx + (if ParseLine(line).Some? then [|front|] else []))
  {
    FromLinesStep(front, line, ports, idx);
    IncreasingStep(front, idx);
    CoversStep(front, line, idx);
  }

  lemma FromLinesStep(front: seq<string>, line: string, ports: seq<Port>, idx: seq<nat>)
    requires |idx| == |ports| && FromLines(front, ports, idx)
    ensures FromLines(front + [line], ports + Record(ParseLine(line)),
                      idx + (if ParseLine(line).Some? then [|front|] else []))
  {
    var lines := front + [line];
    var ports' := ports + Record(ParseLine(line));
    var idx' := idx + (if ParseLine(line).Some? then [|front|] else []);
    forall j | 0 <= j < |idx'|
      ensures idx'[j] < |lines| && ParseLine(lines[idx'[j]]) == Some(ports'[j])
    {
      if j < |idx| {
        assert idx'[j] == idx[j] && ports'[j] == ports[j];
        assert lines[idx[j]] == front[idx[j]];
      } else {
        assert lines[|front|] == line;
      }
    }
  }

  lemma IncreasingStep(front: seq<string>, idx: seq<nat>)
    requires Increasing(idx) && forall j :: 0 <= j < |idx| ==> idx[j] < |front|
    ensures Increasing(idx + [|front|])
  {
  }

  lemma CoversStep(front: seq<string>, line: string, idx: seq<nat>)
    requires Covers(front, idx)
    ensures Covers(front + [line], idx + (if ParseLine(line).Some? then [|front|] else []))
  {
    var lines := front + [line];
    var idx' := idx + (if ParseLine(line).Some? then [|front|] else []);
    forall k | 0 <= k < |lines| && ParseLine(lines[k]).Some?
      ensures k in idx'
    {
      if k < |front| {
        assert lines[k] == front[k];
        assert k in idx;
      } else {
        assert idx'[|idx|] == k;
      }
    }
  }

  /** The shape of the whole inventory: the MacPorts record first when the
      version text yields a token, the line records after it; every record
      still lacks a latest version; at most one record per non-empty line
      plus one. */
  lemma ParseShape(versionText: string, installedText: string)
    ensures var ports := Parse(versionText, installedText);
      && |ports| <= 1 + |Lines(installedText)|
      && (FirstMatch(versionText).Some? ==>
            |ports| > 0 && ports[0] == Port(SelfName, FirstMatch(versionText).value, None)
            && ports[1..] == ParseLines(Lines(installedText)))
      && (FirstMatch(versionText).None? ==> ports == ParseLines(Lines(installedText)))
      && forall j :: 0 <= j < |ports| ==> ports[j].latestVersion.None?
  {
    var self := SelfRecord(versionText);
    var rest := ParseLines(Lines(installedText));
    assert Parse(versionText, installedText) == self + rest;
    if FirstMatch(versionText).Some? {
      assert (self + rest)[1..] == rest;
    }
  }

  /** Records of one more line. */
  lemma ParseLinesAppend(front: seq<string>, line: string)
    ensures ParseLines(front + [line]) == ParseLines(front) + Record(ParseLine(line))
  {
    assert (front + [line])[..|front|] == front;
  }

  /** `ParseLinesAppend` for a prefix of the lines, as the loop meets it. */
  lemma ParseLinesSnoc(lines: seq<string>, i: nat)
    requires i < |lines|
    ensures ParseLines(lines[..i + 1]) == ParseLines(lines[..i]) + Record(ParseLine(lines[i]))
  {
    assert lines[..i + 1] == lines[..i] + [lines[i]];
    ParseLinesAppend(lines[..i], lines[i]);
  }

  /** One turn of the loop in `LoadLocalPorts`. */
  lemma LoadStep(self: seq<Port>, lines: seq<string>, i: nat, ports: seq<Port>)
    requires i < |lines| && ports == self + ParseLines(lines[..i])
    ensures ParseLine(lines[i]).Some? ==> ports + [ParseLine(lines[i]).value] == self + ParseLines(lines[..i + 1])
    ensures ParseLine(lines[i]).None? ==> ports == self + ParseLines(lines[..i + 1])
  {
    var accepted := ParseLine(lines[i]);
    var done := ParseLines(lines[..i]);
    assert (self + done) + Record(accepted) == self + (done + Record(accepted));
    ParseLinesSnoc(lines, i);
    assert ports + [] == ports;
  }

  /** The imperative shape of `loadLocalPorts`: append the MacPorts record,
      then walk the lines and append each accepted one (`ParseLine` is the
      body of the Swift loop). */
  method LoadLocalPorts(versionText: string, installedText: string) returns (ports: seq<Port>)
    ensures ports == Parse(versionText, installedText)
  {
    ports := [];
    var selfMatch := FirstMatch(versionText);
    if selfMatch.Some? {
      ports := ports + [Port(SelfName, selfMatch.value, None)];
    }
    ghost var self := ports;
    assert self == SelfRecord(versionText);
    var lines := Lines(installedText);
    var i := 0;
    while i < |lines|
      invariant 0 <= i <= |lines|
      invariant ports == self + ParseLines(lines[..i])
    {
      var accepted := ParseLine(lines[i]);
      LoadStep(self, lines, i, ports);
      if accepted.Some? {
        ports := ports + [accepted.value];
      }
      i := i + 1;
    }
    assert lines[..i] == lines;
  }
}
