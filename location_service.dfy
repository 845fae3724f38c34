/**
 * The coordinator's location table: loaded at start-up from a resource file
 * of `identifier x y` lines, and looked up by identifier.
 */
module LocationService {
  import opened Java
  import opened Entities

  const Space: JChar := 0x20

  /** A location fits the file format when its name has no space and its coordinates are Java ints. */
  predicate Writable(l: Location) {
    Space !in l.identifier && MinInt <= l.x <= MaxInt && MinInt <= l.y <= MaxInt
  }

  /**
   * What one line contributes: a line that does not split on spaces into
   * exactly three pieces is skipped; otherwise the second and third pieces
   * are parsed as integers, and a malformed one is a NumberFormatException.
   */
  function ParseLine(line: JString): (r: Result<Option<Location>>)
    ensures r.Throw? ==> r.error == NumberFormat
    ensures r.Ok? && r.value.Some? ==> Writable(r.value.value)
  {
    var parts := Split(line, Space);
    if |parts| != 3 then Ok(None)
    else
      var x := ParseInt(parts[1]);
      var y := ParseInt(parts[2]);
      if x.None? || y.None? then Throw(NumberFormat)
      else
        assert Space !in parts[0] by { SplitFree(line, Space); }
        Ok(Some(Location(parts[0], x.value, y.value)))
  }

  /**
   * A line is skipped exactly when it does not split into three pieces, and
   * fails exactly when it does but one of the two numbers is malformed.
   */
  lemma ParseLineCases(line: JString)
    ensures ParseLine(line) == Ok(None) <==> |Split(line, Space)| != 3
    ensures ParseLine(line).Throw? <==>
      (|Split(line, Space)| == 3 && (ParseInt(Split(line, Space)[1]).None? || ParseInt(Split(line, Space)[2]).None?))
    ensures ParseLine(line).Ok? && ParseLine(line).value.Some? ==>
      var parts := Split(line, Space);
      ParseLine(line).value.value == Location(parts[0], ParseInt(parts[1]).value, ParseInt(parts[2]).value)
  {
  }

  /** No piece of a split holds the separator. */
  lemma SplitFree(s: JString, c: JChar)
    ensures forall i | 0 <= i < |Split(s, c)| :: c !in Split(s, c)[i]
  {
    if c in s {
      var all := SplitAll(s, c);
      assert forall i | 0 <= i < |Split(s, c)| :: Split(s, c)[i] == all[i];
    }
  }

  /** The line a location is written as in the file. */
  function FormatLine(l: Location): JString {
    Join(l.identifier, [FormatInt(l.x), FormatInt(l.y)], Space)
  }

  lemma FormatIntHasNoSpace(n: int)
    ensures |FormatInt(n)| > 0 && Space !in FormatInt(n)
  {
    if n >= 0 {
      assert AllDigits(Decimal(n));
    } else {
      assert AllDigits(Decimal(-n));
      assert FormatInt(n) == [0x2D] + Decimal(-n);
    }
  }

  /** Every writable location survives being written as a line and read back. */
  lemma {:induction false} LineRoundTrip(l: Location)
    requires Writable(l)
    ensures ParseLine(FormatLine(l)) == Ok(Some(l))
  {
    FormatIntHasNoSpace(l.x);
    FormatIntHasNoSpace(l.y);
    JavaSplitJoin(l.identifier, [FormatInt(l.x), FormatInt(l.y)], Space);
    ParseFormatInt(l.x);
    ParseFormatInt(l.y);
  }

  /** The location a line is saved as, if any. */
  function Produced(line: JString): (r: seq<Location>)
    ensures |r| <= 1
    ensures |r| == 1 ==> Writable(r[0])
  {
    var parsed := ParseLine(line);
    if parsed.Ok? && parsed.value.Some? then [parsed.value.value] else []
  }

  /** The locations the lines produce, in file order, ignoring lines that fail to parse. */
  function Accepted(lines: seq<JString>): (r: seq<Location>)
    ensures |r| <= |lines|
    ensures forall i | 0 <= i < |r| :: Writable(r[i])
  {
    if |lines| == 0 then [] else Accepted(lines[..|lines| - 1]) + Produced(lines[|lines| - 1])
  }

  predicate Malformed(line: JString) {
    ParseLine(line).Throw?
  }

  /** The index of the first line whose numbers do not parse, or -1. */
  function FirstMalformed(lines: seq<JString>): (k: int)
    ensures -1 <= k < |lines|
  {
    if |lines| == 0 then -1
    else
      var k := FirstMalformed(lines[..|lines| - 1]);
      if 0 <= k then k else if Malformed(lines[|lines| - 1]) then |lines| - 1 else -1
  }

  /** `FirstMalformed` finds the first malformed line, and -1 means there is none. */
  lemma {:induction false} FirstMalformedIsFirst(lines: seq<JString>)
    ensures FirstMalformed(lines) == -1 <==> forall i | 0 <= i < |lines| :: !Malformed(lines[i])
    ensures 0 <= FirstMalformed(lines) ==>
      Malformed(lines[FirstMalformed(lines)]) && forall j | 0 <= j < FirstMalformed(lines) :: !Malformed(lines[j])
  {
    if |lines| > 0 {
      var n := |lines| - 1;
      FirstMalformedIsFirst(lines[..n]);
      assert forall i | 0 <= i < n :: lines[..n][i] == lines[i];
    }
  }

  /** What reading line `i` after well-formed lines does to the load's outcome. */
  lemma LoadStep(lines: seq<JString>, i: nat)
    requires i < |lines| && FirstMalformed(lines[..i]) == -1
    ensures Malformed(lines[i]) ==> FirstMalformed(lines) == i
    ensures !Malformed(lines[i]) ==>
      FirstMalformed(lines[..i + 1]) == -1 && Accepted(lines[..i + 1]) == Accepted(lines[..i]) + Produced(lines[i])
  {
    assert lines[..i + 1][..i] == lines[..i];
    if Malformed(lines[i]) {
      FirstMalformedPrefix(lines, i + 1);
    }
  }

  /** A malformed line in a prefix is still the first one of the whole file. */
  lemma {:induction false} FirstMalformedPrefix(lines: seq<JString>, m: nat)
    requires m <= |lines| && 0 <= FirstMalformed(lines[..m])
    ensures FirstMalformed(lines) == FirstMalformed(lines[..m])
    decreases |lines| - m
  {
    if m < |lines| {
      assert lines[..m + 1][..m] == lines[..m];
      FirstMalformedPrefix(lines, m + 1);
    } else {
      assert lines[..m] == lines;
    }
  }

  function FormatLines(locations: seq<Location>): (lines: seq<JString>)
    ensures |lines| == |locations|
  {
    seq(|locations|, i requires 0 <= i < |locations| => FormatLine(locations[i]))
  }

  /** A file written from writable locations loads as exactly those locations, with no malformed line. */
  lemma {:induction false} FileRoundTrip(locations: seq<Location>)
    requires forall i | 0 <= i < |locations| :: Writable(locations[i])
    ensures FirstMalformed(FormatLines(locations)) == -1
    ensures Accepted(FormatLines(locations)) == locations
  {
    if |locations| > 0 {
      var n := |locations| - 1;
      var before := FormatLines(locations[..n]);
      assert locations == locations[..n] + [locations[n]];
      assert FormatLines(locations) == before + [FormatLine(locations[n])];
      FileRoundTrip(locations[..n]);
      LineAccepted(locations[n]);
      AppendLine(before, FormatLine(locations[n]));
    }
  }

  /** Reading one more line extends what the lines before it gave. */
  lemma AppendLine(lines: seq<JString>, line: JString)
    ensures FirstMalformed(lines + [line]) ==
      if 0 <= FirstMalformed(lines) then FirstMalformed(lines) else if Malformed(line) then |lines| else -1
    ensures Accepted(lines + [line]) == Accepted(lines) + Produced(line)
  {
    assert (lines + [line])[..|lines|] == lines;
  }

  /** The line written for a writable location is not malformed and produces that location. */
  lemma LineAccepted(l: Location)
    requires Writable(l)
    ensures !Malformed(FormatLine(l)) && Produced(FormatLine(l)) == [l]
  {
    LineRoundTrip(l);
  }

  /** Lines of any other shape than three space-separated pieces are skipped without a trace. */
  lemma OtherLinesSkipped(lines: seq<JString>, other: JString)
    requires |Split(other, Space)| != 3
    ensures Accepted(lines + [other]) == Accepted(lines)
  {
    assert (lines + [other])[..|lines|] == lines;
  }

  /** The repository's derived query `findByIdentifier`: no row, one row, or IncorrectResultSize. */
  function FindByIdentifier(rows: seq<Location>, identifier: JString): (r: Result<Option<Location>>)
    ensures r == Ok(None) <==> forall i | 0 <= i < |rows| :: rows[i].identifier != identifier
    ensures r.Ok? && r.value.Some? ==>
      r.value.value in rows && r.value.value.identifier == identifier &&
      forall i | 0 <= i < |rows| && rows[i].identifier == identifier :: rows[i] == r.value.value
    ensures r.Throw? ==> r.error == IncorrectResultSize
  {
    FindOne(rows, (l: Location) => l.identifier == identifier)
  }

  class LocationService {
    /** The location table, in insertion order. */
    var locations: seq<Location>

    constructor()
      ensures locations == []
    {
      locations := [];
    }

    /**
     * `loadLocationsFromFile`: the table is emptied first; a missing
     * resource is a NullPointerException; otherwise every accepted line is
     * saved in file order, until a malformed number ends the load with a
     * NumberFormatException that leaves the lines before it saved.
     */
    method LoadLocationsFromFile(file: Option<seq<JString>>) returns (r: Result<()>)
      modifies this
      ensures file.None? ==> r == Throw(NullPointer) && locations == []
      ensures file.Some? && FirstMalformed(file.value) < 0 ==> r == Ok(()) && locations == Accepted(file.value)
      ensures file.Some? && FirstMalformed(file.value) >= 0 ==>
        r == Throw(NumberFormat) && locations == Accepted(file.value[..FirstMalformed(file.value)])
    {
      locations := [];
      if file.None? {
        return Throw(NullPointer);
      }
      r := LoadLines(file.value);
    }

    /** The load once the table is empty and the resource is open: the lines in file order. */
    method LoadLines(lines: seq<JString>) returns (r: Result<()>)
      requires locations == []
      modifies this
      ensures FirstMalformed(lines) < 0 ==> r == Ok(()) && locations == Accepted(lines)
      ensures FirstMalformed(lines) >= 0 ==> r == Throw(NumberFormat) && locations == Accepted(lines[..FirstMalformed(lines)])
    {
      var i := 0;
      while i < |lines|
        invariant 0 <= i <= |lines|
        invariant FirstMalformed(lines[..i]) == -1
        invariant locations == Accepted(lines[..i])
      {
        var stored := LoadNext(lines, i);
        if stored.Throw? {
          return stored;
        }
        i := i + 1;
      }
      assert lines[..i] == lines;
      r := Ok(());
    }

    /** Line `i` after well-formed lines: the load either goes on past it or stops there. */
    method LoadNext(lines: seq<JString>, i: nat) returns (r: Result<()>)
      requires i < |lines| && FirstMalformed(lines[..i]) == -1 && locations == Accepted(lines[..i])
      modifies this
      ensures r.Throw? ==> r == Throw(NumberFormat) && FirstMalformed(lines) == i && locations == Accepted(lines[..i])
      ensures r.Ok? ==> FirstMalformed(lines[..i + 1]) == -1 && locations == Accepted(lines[..i + 1])
    {
      r := Store(lines[i]);
      LoadStep(lines, i);
    }

    /**
     * One line of the file: a location is saved when the line has one, and a
     * malformed number throws with nothing saved.
     */
    method Store(line: JString) returns (r: Result<()>)
      modifies this
      ensures Malformed(line) ==> r == Throw(NumberFormat) && locations == old(locations)
      ensures !Malformed(line) ==> r == Ok(()) && locations == old(locations) + Produced(line)
    {
      var parsed := ParseLine(line);
      if parsed.Throw? {
        return Throw(parsed.error);
      }
      if parsed.value.Some? {
        locations := locations + [parsed.value.value];
      }
      r := Ok(());
    }

    /**
     * `findLocationByIdentifier`: the location with that identifier; none is
     * a RuntimeException naming it, several an IncorrectResultSize error.
     */
    function FindLocationByIdentifier(identifier: JString): (r: Result<Location>)
      reads this
      ensures r.Ok? ==> r.value in locations && r.value.identifier == identifier
      ensures r == Throw(Runtime(Lit("Location not found: ") + identifier)) <==>
        forall i | 0 <= i < |locations| :: locations[i].identifier != identifier
      ensures r.Throw? && r.error != IncorrectResultSize ==> r.error == Runtime(Lit("Location not found: ") + identifier)
    {
      var found := FindByIdentifier(locations, identifier);
      if found.Throw? then Throw(found.error)
      else if found.value.None? then Throw(Runtime(Lit("Location not found: ") + identifier))
      else Ok(found.value.value)
    }

    /** Once the table holds distinct identifiers, each one is found. */
    lemma FindUnique(k: int)
      requires 0 <= k < |locations|
      requires forall i, j | 0 <= i < j < |locations| :: locations[i].identifier != locations[j].identifier
      ensures FindLocationByIdentifier(locations[k].identifier) == Ok(locations[k])
    {
      var identifier := locations[k].identifier;
      FilterSingle(locations, (l: Location) => l.identifier == identifier, k);
    }
  }
}
