/**
 * The strings `renderTable` builds for a row: the address a click opens and
 * the text of the procedures cell.
 */
module Table {
  import opened Text
  import opened Records
  import Matrix

  /** The address a row opens: base URL, `reports/`, the lower-cased id and the first platform's directory. */
  function RowLink(r: Record, registry: Registry): (link: string)
    ensures r.baseUrl + "reports/" <= link
    ensures '/' !in r.id && '/' !in PlatformDir(registry, r.platforms) ==>
      Split(link[|r.baseUrl| + 8..], '/') == [Lower(r.id), PlatformDir(registry, r.platforms)]
  {
    var tail := Lower(r.id) + "/" + PlatformDir(registry, r.platforms);
    RowTailSplits(r, registry);
    assert (r.baseUrl + "reports/" + tail)[|r.baseUrl| + 8..] == tail;
    r.baseUrl + "reports/" + tail
  }

  lemma RowTailSplits(r: Record, registry: Registry)
    ensures '/' !in r.id && '/' !in PlatformDir(registry, r.platforms) ==>
      Split(Lower(r.id) + "/" + PlatformDir(registry, r.platforms), '/') == [Lower(r.id), PlatformDir(registry, r.platforms)]
  {
    if '/' !in r.id && '/' !in PlatformDir(registry, r.platforms) {
      Matrix.MatrixLinkParts(r, "", registry);
    }
  }

  /** A table row opens the same report as the record's matrix cell under a selected platform. */
  lemma RowLinkIsMatrixLink(r: Record, registry: Registry, selected: string)
    requires selected != "all"
    ensures RowLink(r, registry) == Matrix.ReportUrl(r, Matrix.MatrixLink(r, selected, registry))
  {
    var dir := PlatformDir(registry, r.platforms);
    assert r.baseUrl + "reports/" + Lower(r.id) + "/" + dir == r.baseUrl + "reports/" + (Lower(r.id) + "/" + dir);
  }

  /** The text between the key and the value of a procedures line, without the line break. */
  function LineOf(procedure: (string, string)): string {
    procedure.0 + ": " + procedure.1
  }

  /** One line of the procedures cell. */
  function ProcedureLine(procedure: (string, string)): string {
    LineOf(procedure) + "\n"
  }

  /** The procedures cell: one line per procedure, in key order. */
  function ProceduresText(procedures: seq<(string, string)>): string {
    if procedures == [] then "" else ProcedureLine(procedures[0]) + ProceduresText(procedures[1..])
  }

  lemma {:induction false} ProceduresTextAppend(procedures: seq<(string, string)>, p: (string, string))
    ensures ProceduresText(procedures + [p]) == ProceduresText(procedures) + ProcedureLine(p)
  {
    if procedures == [] {
      assert [p][1..] == [];
    } else {
      assert (procedures + [p])[1..] == procedures[1..] + [p];
      ProceduresTextAppend(procedures[1..], p);
    }
  }

  /**
   * The `for...in` loop over `item['procedures']`: `key: value` and a line
   * break appended per procedure; an absent field leaves the text empty.
   */
  method RenderProcedures(procedures: Option<seq<(string, string)>>) returns (text: string)
    ensures procedures.None? ==> text == ""
    ensures procedures.Some? ==> text == ProceduresText(procedures.value)
  {
    text := "";
    if procedures.Some? {
      var ps := procedures.value;
      for i := 0 to |ps|
        invariant text == ProceduresText(ps[..i])
      {
        assert ps[..i + 1] == ps[..i] + [ps[i]];
        ProceduresTextAppend(ps[..i], ps[i]);
        text := text + ps[i].0 + ": " + ps[i].1 + "\n";
      }
      assert ps[..|ps|] == ps;
    }
  }

  function Lines(procedures: seq<(string, string)>): (lines: seq<string>)
    ensures |lines| == |procedures|
    ensures forall k :: 0 <= k < |lines| ==> lines[k] == LineOf(procedures[k])
  {
    seq(|procedures|, k requires 0 <= k < |procedures| => LineOf(procedures[k]))
  }

  /** The cell text is its lines joined by line breaks, with a final line break. */
  lemma {:induction false} ProceduresTextIsJoin(procedures: seq<(string, string)>)
    ensures ProceduresText(procedures) == Join(Lines(procedures) + [""], '\n')
  {
    if procedures != [] {
      ProceduresTextIsJoin(procedures[1..]);
      var rest := Lines(procedures[1..]) + [""];
      var all := Lines(procedures) + [""];
      assert all == [LineOf(procedures[0])] + rest;
      assert all[1..] == rest;
    }
  }

  /** Reads one line back: the key before the first `:`, the value after the `: ` that follows it. */
  function ParseLine(line: string): (string, string) {
    var key := Split(line, ':')[0];
    (key, if |key| + 2 <= |line| then line[|key| + 2..] else "")
  }

  /** Reads the cell back: one procedure per line-break-terminated line. */
  function ParseProcedures(text: string): seq<(string, string)> {
    var lines := Split(text, '\n');
    seq(|lines| - 1, k requires 0 <= k < |lines| - 1 => ParseLine(lines[k]))
  }

  lemma ParseLineOf(procedure: (string, string))
    requires ':' !in procedure.0
    ensures ParseLine(LineOf(procedure)) == procedure
  {
    var (key, value) := procedure;
    assert LineOf(procedure) == key + [':'] + (" " + value);
    SplitConcat(key, " " + value, ':');
    SplitNoSeparator(key, ':');
    assert LineOf(procedure)[|key| + 2..] == value;
  }

  /** Without line breaks in the procedures, the cell text splits into its lines and a final empty piece. */
  lemma SplitProceduresText(procedures: seq<(string, string)>)
    requires forall k :: 0 <= k < |procedures| ==> '\n' !in procedures[k].0 && '\n' !in procedures[k].1
    ensures Split(ProceduresText(procedures), '\n') == Lines(procedures) + [""]
  {
    var lines := Lines(procedures) + [""];
    forall k | 0 <= k < |lines|
      ensures '\n' !in lines[k]
    {
      if k < |procedures| {
        LineOfNoBreak(procedures[k]);
      }
    }
    ProceduresTextIsJoin(procedures);
    SplitJoin(lines, '\n');
  }

  lemma LineOfNoBreak(procedure: (string, string))
    requires '\n' !in procedure.0 && '\n' !in procedure.1
    ensures '\n' !in LineOf(procedure)
  {
  }

  /**
   * The cell text names every procedure unambiguously: when no key holds
   * `:` or a line break and no value holds a line break, reading the text
   * back gives the procedures, in order.
   */
  lemma ProceduresRoundTrip(procedures: seq<(string, string)>)
    requires forall k :: 0 <= k < |procedures| ==> ':' !in procedures[k].0 && '\n' !in procedures[k].0
    requires forall k :: 0 <= k < |procedures| ==> '\n' !in procedures[k].1
    ensures ParseProcedures(ProceduresText(procedures)) == procedures
  {
    SplitProceduresText(procedures);
    var lines := Lines(procedures) + [""];
    var parsed := ParseProcedures(ProceduresText(procedures));
    assert |parsed| == |procedures|;
    forall k | 0 <= k < |procedures|
      ensures parsed[k] == procedures[k]
    {
      assert parsed[k] == ParseLine(lines[k]);
      ParseLineOf(procedures[k]);
    }
  }
}
