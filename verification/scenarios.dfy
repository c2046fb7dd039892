/** Worked inputs: a listing line with a build suffix, a malformed line,
    and a whole run from command output to reconciled statuses. */
module Scenarios {
  import opened Wrappers
  import opened Text
  import opened VersionPattern
  import opened Ports
  import opened Inventory
  import opened Reconcile
  import opened PortsModel

  /** The token stops before the `_0+bar` revision and variant suffix. */
  lemma SuffixIsDropped()
    ensures FirstMatch("1.2.3_0+bar") == Some("1.2.3")
  {
    var s := "1.2.3_0+bar";
    assert FirstDigitFrom(s, 0) == 0;
    assert RunEnd(s, 1) == 1;
    assert RunEnd(s, 2) == 3;
    assert RunEnd(s, 4) == 5;
    assert GroupsEnd(s, 5, 2) == 5;
    assert GroupsEnd(s, 3, 3) == 5;
    assert GroupsEnd(s, 1, 4) == 5;
    assert s[0..5] == "1.2.3";
  }

  /** A well-formed listing line yields its name and bare version. */
  lemma ListingLine(line: string)
    requires Fields(line) == ["foo", "1.2.3_0+bar", "active"]
    ensures ParseLine(line) == Some(Port("foo", "1.2.3", None))
  {
    SuffixIsDropped();
    NameFoo();
  }

  /** `foo` is a whole name; kept apart from `ListingLine`, in whose context
      the literal name costs far more to prove. */
  lemma NameFoo()
    ensures MatchesName("foo")
  {
    assert IsName("foo");
  }

  /** The line is cut into those fields. */
  lemma ListingLineFields(line: string)
    requires line == "foo 1.2.3_0+bar active"
    ensures Fields(line) == ["foo", "1.2.3_0+bar", "active"]
  {
    var fields := ["foo", "1.2.3_0+bar", "active"];
    assert Join(fields[2..], ' ') == "active";
    assert Join(fields[1..], ' ') == "1.2.3_0+bar active";
    assert Join(fields, ' ') == line;
    SplitJoin(fields, ' ', IsSpace);
  }

  /** A line whose version has no suffix keeps it whole. */
  lemma OtherLine(line: string)
    requires Fields(line) == ["baz", "2.0", "active"]
    ensures ParseLine(line) == Some(Port("baz", "2.0", None))
  {
    PlainVersion();
    NameBaz();
  }

  /** `baz` is a whole name. */
  lemma NameBaz()
    ensures MatchesName("baz")
  {
    assert IsName("baz");
  }

  lemma PlainVersion()
    ensures FirstMatch("2.0") == Some("2.0")
  {
    var s := "2.0";
    assert FirstDigitFrom(s, 0) == 0;
    assert RunEnd(s, 1) == 1;
    assert RunEnd(s, 2) == 3;
    assert GroupsEnd(s, 3, 3) == 3;
    assert GroupsEnd(s, 1, 4) == 3;
    assert s[0..3] == "2.0";
  }

  /** A line with fewer than three fields yields nothing. */
  lemma ShortLine(line: string)
    requires Fields(line) == ["bad-line"]
    ensures ParseLine(line) == None
  {
  }

  /** The inventory of a small machine whose listing has the lines `foo`,
      `bad-line` and `baz`: MacPorts itself first, then `foo` and `baz`;
      the malformed line is skipped. */
  lemma SmallInventory(versionText: string, installedText: string, foo: string, bad: string, baz: string)
    requires FirstMatch(versionText) == Some("2.9.1")
    requires Lines(installedText) == [foo, bad, baz]
    requires Fields(foo) == ["foo", "1.2.3_0+bar", "active"]
    requires Fields(bad) == ["bad-line"]
    requires Fields(baz) == ["baz", "2.0", "active"]
    ensures Parse(versionText, installedText)
            == [Port("macports", "2.9.1", None), Port("foo", "1.2.3", None), Port("baz", "2.0", None)]
  {
    ListingRecords(foo, bad, baz);
    assert SelfRecord(versionText) == [Port("macports", "2.9.1", None)];
  }

  /** The listing lines alone: `foo` and `baz`, in order. */
  lemma ListingRecords(foo: string, bad: string, baz: string)
    requires Fields(foo) == ["foo", "1.2.3_0+bar", "active"]
    requires Fields(bad) == ["bad-line"]
    requires Fields(baz) == ["baz", "2.0", "active"]
    ensures ParseLines([foo, bad, baz]) == [Port("foo", "1.2.3", None), Port("baz", "2.0", None)]
  {
    ListingLine(foo);
    ShortLine(bad);
    OtherLine(baz);
    AcceptSkipAccept(foo, bad, baz, Port("foo", "1.2.3", None), Port("baz", "2.0", None));
  }

  /** Three lines of which the middle one is rejected. */
  lemma AcceptSkipAccept(a: string, b: string, c: string, p: Port, q: Port)
    requires ParseLine(a) == Some(p) && ParseLine(b) == None && ParseLine(c) == Some(q)
    ensures ParseLines([a, b, c]) == [p, q]
  {
    var one := [a];
    var two := [a, b];
    ParseLinesAppend([], a);
    assert [] + [a] == one;
    ParseLinesAppend(one, b);
    assert one + [b] == two;
    ParseLinesAppend(two, c);
    assert two + [c] == [a, b, c];
  }

  /** A whole `load()` from an empty view over that machine, with a registry
      that reports `foo` and `macports` at their installed versions: both
      are latest, `baz`, which the registry did not report, is unknown; the
      view has stopped loading and shows the check time. */
  lemma SmallRun(versionText: string, installedText: string, foo: string, bad: string, baz: string, stamp: string)
    requires FirstMatch(versionText) == Some("2.9.1")
    requires Lines(installedText) == [foo, bad, baz]
    requires Fields(foo) == ["foo", "1.2.3_0+bar", "active"]
    requires Fields(bad) == ["bad-line"]
    requires Fields(baz) == ["baz", "2.0", "active"]
    ensures var m := Load(Init([]), Success(Parse(versionText, installedText)),
                          _ => Success(map["foo" := "1.2.3", "macports" := "2.9.1"]),
                          stamp);
      && !m.loading && m.lastCheck == Some(stamp) && |m.ports| == 3
      && m.ports[0].name == "macports" && StatusOf(m.ports[0]) == Latest
      && m.ports[1].name == "foo" && StatusOf(m.ports[1]) == Latest
      && m.ports[2].name == "baz" && StatusOf(m.ports[2]) == Unknown
  {
    var ports := Parse(versionText, installedText);
    var versions := map["foo" := "1.2.3", "macports" := "2.9.1"];
    SmallInventory(versionText, installedText, foo, bad, baz);
    SmallMerge(ports, versions);
  }

  /** The merge fills in the two reported names and leaves `baz` alone. */
  lemma SmallMerge(ports: seq<Port>, versions: map<string, string>)
    requires ports == [Port("macports", "2.9.1", None), Port("foo", "1.2.3", None), Port("baz", "2.0", None)]
    requires versions == map["foo" := "1.2.3", "macports" := "2.9.1"]
    ensures Merge(ports, versions)
            == [Port("macports", "2.9.1", Some("2.9.1")), Port("foo", "1.2.3", Some("1.2.3")), Port("baz", "2.0", None)]
  {
    assert "baz" !in versions;
  }

  /** The MacPorts version line yields `2.9.1`. */
  lemma SelfVersion(versionText: string)
    requires versionText == "MacPorts 2.9.1\n"
    ensures FirstMatch(versionText) == Some("2.9.1")
  {
    var s := versionText;
    assert FirstDigitFrom(s, 9) == 9;
    assert FirstDigitFrom(s, 8) == 9;
    assert FirstDigitFrom(s, 7) == 9;
    assert FirstDigitFrom(s, 6) == 9;
    assert FirstDigitFrom(s, 5) == 9;
    assert FirstDigitFrom(s, 4) == 9;
    assert FirstDigitFrom(s, 3) == 9;
    assert FirstDigitFrom(s, 2) == 9;
    assert FirstDigitFrom(s, 1) == 9;
    assert FirstDigitFrom(s, 0) == 9;
    assert RunEnd(s, 10) == 10;
    assert RunEnd(s, 11) == 12;
    assert RunEnd(s, 13) == 14;
    assert GroupsEnd(s, 14, 2) == 14;
    assert GroupsEnd(s, 12, 3) == 14;
    assert GroupsEnd(s, 10, 4) == 14;
    assert s[9..14] == "2.9.1";
  }

  /** A text of newline-free lines, each ended by a newline, has exactly
      those lines. */
  lemma LinesOfText(lines: seq<string>, text: string)
    requires forall k :: 0 <= k < |lines| ==> |lines[k]| > 0
    requires forall k, j :: 0 <= k < |lines| && 0 <= j < |lines[k]| ==> !IsNewline(lines[k][j])
    requires text == Join(lines, '\n') + ['\n']
    ensures Lines(text) == lines
  {
    SplitDropsTrailing(Join(lines, '\n'), '\n', IsNewline);
    SplitJoin(lines, '\n', IsNewline);
  }

  /** The listing text has the three lines the scenarios use. */
  lemma ListingText(installedText: string)
    requires installedText == "foo 1.2.3_0+bar active\nbad-line\nbaz 2.0 active\n"
    ensures Lines(installedText) == ["foo 1.2.3_0+bar active", "bad-line", "baz 2.0 active"]
  {
    var lines := ["foo 1.2.3_0+bar active", "bad-line", "baz 2.0 active"];
    ListingJoin(lines);
    LinesOfText(lines, installedText);
  }

  lemma ListingJoin(lines: seq<string>)
    requires lines == ["foo 1.2.3_0+bar active", "bad-line", "baz 2.0 active"]
    ensures Join(lines, '\n') + ['\n'] == "foo 1.2.3_0+bar active\nbad-line\nbaz 2.0 active\n"
  {
    assert Join(lines[2..], '\n') == "baz 2.0 active";
    assert Join(lines[1..], '\n') == "bad-line\nbaz 2.0 active";
  }

  /** The two listing lines beside the first are cut into their fields. */
  lemma OtherFields(bad: string, baz: string)
    requires bad == "bad-line" && baz == "baz 2.0 active"
    ensures Fields(bad) == ["bad-line"]
    ensures Fields(baz) == ["baz", "2.0", "active"]
  {
    SplitWhole(bad, IsSpace);
    var fields := ["baz", "2.0", "active"];
    assert Join(fields[2..], ' ') == "active";
    assert Join(fields[1..], ' ') == "2.0 active";
    assert Join(fields, ' ') == baz;
    SplitJoin(fields, ' ', IsSpace);
  }

  /** The small machine from the literal command outputs: `port version`
      printing `MacPorts 2.9.1` and the listing of `foo`, a malformed line
      and `baz`. */
  lemma SmallMachine(versionText: string, installedText: string)
    requires versionText == "MacPorts 2.9.1\n"
    requires installedText == "foo 1.2.3_0+bar active\nbad-line\nbaz 2.0 active\n"
    ensures Parse(versionText, installedText)
            == [Port("macports", "2.9.1", None), Port("foo", "1.2.3", None), Port("baz", "2.0", None)]
  {
    var foo, bad, baz := "foo 1.2.3_0+bar active", "bad-line", "baz 2.0 active";
    SelfVersion(versionText);
    ListingText(installedText);
    ListingLineFields(foo);
    OtherFields(bad, baz);
    SmallInventory(versionText, installedText, foo, bad, baz);
  }
}
