/** The PDB file reader of tool/PDBParser.java: a record-by-record scan of a
    PDB file that keeps the positions of the backbone atoms of the ATOM
    records. Opening the file (the Scanner over pdb_files/<id>.pdb) is the
    `file` parameter, absent when the file does not exist, and
    Double.parseDouble is the `number` parameter, absent where it throws
    NumberFormatException. */
module PdbParsing {
  import opened Util
  import opened Vectors

  /** The exceptions that escape the constructor: nextToken on a record
      without a token (NoSuchElementException), a substring outside the
      record (StringIndexOutOfBoundsException), and a coordinate that is
      not a number (NumberFormatException). */
  datatype PdbError = NoToken | OutOfRange | BadNumber(text: string)

  // ---------------------------------------------------------------------
  // recordType

  /** The default delimiters of java.util.StringTokenizer. */
  predicate Delimiter(c: char)
  {
    c == ' ' || c == '\t' || c == '\n' || c == '\r' || c == 12 as char
  }

  /** The longest delimiter-free prefix of s. */
  function FirstWord(s: string): (w: string)
    ensures |w| <= |s| && w == s[..|w|]
    ensures forall k :: 0 <= k < |w| ==> !Delimiter(w[k])
    ensures |w| == |s| || Delimiter(s[|w|])
  {
    if |s| == 0 || Delimiter(s[0]) then [] else [s[0]] + FirstWord(s[1..])
  }

  /** recordType, lines 93-96: the first token of the record, or nothing
      when the record holds only delimiters (nextToken then throws). */
  function RecordType(record: string): (r: Option<string>)
    ensures r.None? <==> forall k :: 0 <= k < |record| ==> Delimiter(record[k])
    ensures r.Some? ==> |r.value| > 0 && forall k :: 0 <= k < |r.value| ==> !Delimiter(r.value[k])
  {
    if |record| == 0 then None
    else if Delimiter(record[0]) then RecordType(record[1..])
    else Some(FirstWord(record))
  }

  /** A word followed by a delimiter or by the end is the first word. */
  lemma {:induction false} FirstWordOf(w: string, rest: string)
    requires forall k :: 0 <= k < |w| ==> !Delimiter(w[k])
    requires |rest| == 0 || Delimiter(rest[0])
    ensures FirstWord(w + rest) == w
  {
    if |w| > 0 {
      assert (w + rest)[1..] == w[1..] + rest;
      FirstWordOf(w[1..], rest);
    }
  }

  /** Whatever delimiters precede it, a token that ends at a delimiter or
      at the end of the record is the record type. */
  lemma {:induction false} RecordTypeOf(padding: string, token: string, rest: string)
    requires forall k :: 0 <= k < |padding| ==> Delimiter(padding[k])
    requires |token| > 0 && forall k :: 0 <= k < |token| ==> !Delimiter(token[k])
    requires |rest| == 0 || Delimiter(rest[0])
    ensures RecordType(padding + token + rest) == Some(token)
  {
    if |padding| == 0 {
      assert padding + token + rest == token + rest;
      FirstWordOf(token, rest);
    } else {
      assert (padding + token + rest)[1..] == padding[1..] + token + rest;
      RecordTypeOf(padding[1..], token, rest);
    }
  }

  // ---------------------------------------------------------------------
  // columns

  /** columns(record, i, j), lines 98-104: String.substring(i, j), so the
      characters at 0-based positions i to j-1, and an exception unless
      0 <= i <= j <= the record's length. */
  function Columns(record: string, i: int, j: int): (r: Result<string, PdbError>)
    ensures r.Success? <==> 0 <= i <= j <= |record|
    ensures r.Failure? ==> r.error == OutOfRange
    ensures r.Success? ==> |r.value| == j - i && forall k :: 0 <= k < j - i ==> r.value[k] == record[i + k]
  {
    if 0 <= i <= j <= |record| then Success(record[i..j]) else Failure(OutOfRange)
  }

  /** A field of the ATOM record layout of the wwPDB Atomic Coordinate
      Entry Format, version 3.3: columns a to b, counted from 1 and both
      included. */
  function Field(record: string, a: nat, b: nat): string
    requires 1 <= a <= b <= |record|
  {
    record[a - 1..b]
  }

  /** Called with a field's own column numbers, as parseAtom does, columns
      returns the field without its first character. */
  lemma ColumnsDropFirst(record: string, a: nat, b: nat)
    requires 1 <= a <= b <= |record|
    ensures Columns(record, a, b) == Success(Field(record, a, b)[1..])
  {
    assert Field(record, a, b)[1..] == record[a..b];
  }

  /** A sample ATOM record (the nitrogen of a methionine) whose x
      coordinate, -123.456, fills columns 31-38: parseAtom reads "123.456",
      without the sign. */
  lemma SignOfFullWidthCoordinateLost()
    ensures var record := "ATOM      1  N   MET A   1    " + "-123.456" + "  45.678  12.345  1.00 20.00           N";
      && Field(record, 31, 38) == "-123.456"
      && Columns(record, 31, 38) == Success("123.456")
  {
    var front, x, back := "ATOM      1  N   MET A   1    ", "-123.456", "  45.678  12.345  1.00 20.00           N";
    var record := front + x + back;
    assert |front| == 30 && |x| == 8;
    assert record[30..38] == x;
    ColumnsDropFirst(record, 31, 38);
  }

  // ---------------------------------------------------------------------
  // parseAtom and the record dispatch

  /** One coordinate: the columns, then Double.parseDouble. */
  function Coordinate(record: string, i: int, j: int, number: string -> Option<real>): (r: Result<real, PdbError>)
    ensures r.Success? <==> 0 <= i <= j <= |record| && number(record[i..j]).Some?
    ensures r.Success? ==> r.value == number(record[i..j]).value
  {
    var text := Columns(record, i, j);
    if text.Failure? then Failure(text.error)
    else if number(text.value).None? then Failure(BadNumber(text.value))
    else Success(number(text.value).value)
  }

  /** What parseAtom (lines 56-67) adds for an ATOM record: the point from
      columns 31-38, 39-46 and 47-54 when the name (columns 13-16) starts
      with 'N' or 'C', nothing otherwise. A name starting "CA" starts with
      'C', so the third test never decides. */
  function AtomPoint(record: string, number: string -> Option<real>): (r: Result<Option<Vec3>, PdbError>)
    ensures |record| < 16 ==> r == Failure(OutOfRange)
    ensures 16 <= |record| && record[13] != 'N' && record[13] != 'C' ==> r == Success(None)
    ensures 16 <= |record| && (record[13] == 'N' || record[13] == 'C') ==>
      (r.Success? <==> 54 <= |record| && number(record[31..38]).Some? && number(record[39..46]).Some? && number(record[47..54]).Some?)
    ensures r.Success? && r.value.Some? ==>
      r.value.value == Vec3(number(record[31..38]).value, number(record[39..46]).value, number(record[47..54]).value)
  {
    var name := Columns(record, 13, 16);
    if name.Failure? then Failure(name.error)
    else if name.value[0] == 'N' || name.value[0] == 'C' || name.value[..2] == "CA" then
      var x := Coordinate(record, 31, 38, number);
      if x.Failure? then Failure(x.error)
      else
        var y := Coordinate(record, 39, 46, number);
        if y.Failure? then Failure(y.error)
        else
          var z := Coordinate(record, 47, 54, number);
          if z.Failure? then Failure(z.error)
          else Success(Some(Vec3(x.value, y.value, z.value)))
    else Success(None)
  }

  /** The body of the constructor's loop, lines 35-44, for one record:
      parseAtom for an ATOM record; parseHelix and parseSheet (lines 74-85)
      are empty, and other record types are skipped. */
  function RecordPoint(record: string, number: string -> Option<real>): Result<Option<Vec3>, PdbError>
  {
    match RecordType(record)
    case None => Failure(NoToken)
    case Some(t) => if t == "ATOM" then AtomPoint(record, number) else Success(None)
  }

  /** The backbone read from the records, or the first exception. */
  function Backbone(records: seq<string>, number: string -> Option<real>): Result<seq<Vec3>, PdbError>
    decreases |records|
  {
    if |records| == 0 then Success([])
    else
      var before := Backbone(records[..|records| - 1], number);
      if before.Failure? then before
      else
        var p := RecordPoint(records[|records| - 1], number);
        if p.Failure? then Failure(p.error)
        else if p.value.Some? then Success(before.value + [p.value.value])
        else before
  }

  /** Reading a file in two parts: the points of the first part come
      first, and an exception in the second part is the file's. */
  lemma {:induction false} BackboneAppend(a: seq<string>, b: seq<string>, number: string -> Option<real>)
    requires Backbone(a, number).Success?
    ensures Backbone(a + b, number) ==
      if Backbone(b, number).Success? then Success(Backbone(a, number).value + Backbone(b, number).value)
      else Backbone(b, number)
  {
    if |b| == 0 {
      assert a + b == a && Backbone(a, number).value + [] == Backbone(a, number).value;
    } else {
      var b' := b[..|b| - 1];
      assert (a + b)[..|a + b| - 1] == a + b';
      assert (a + b)[|a + b| - 1] == b[|b| - 1];
      BackboneAppend(a, b', number);
      if Backbone(b', number).Success? {
        var p := RecordPoint(b[|b| - 1], number);
        if p.Success? && p.value.Some? {
          var pa, pb := Backbone(a, number).value, Backbone(b', number).value;
          assert (pa + pb) + [p.value.value] == pa + (pb + [p.value.value]);
        }
      }
    }
  }

  /** Once a record throws, the rest of the file is never read. */
  lemma {:induction false} BackboneFailureStays(records: seq<string>, t: nat, number: string -> Option<real>)
    requires t <= |records| && Backbone(records[..t], number).Failure?
    ensures Backbone(records, number) == Backbone(records[..t], number)
  {
    if t < |records| {
      assert records[..|records| - 1][..t] == records[..t];
      BackboneFailureStays(records[..|records| - 1], t, number);
    } else {
      assert records[..t] == records;
    }
  }

  /** Records of any other type than ATOM, HELIX and SHEET included, never
      add a point. */
  lemma {:induction false} BackboneWithoutAtoms(records: seq<string>, number: string -> Option<real>)
    requires forall k :: 0 <= k < |records| ==> RecordType(records[k]).Some? && RecordType(records[k]).value != "ATOM"
    ensures Backbone(records, number) == Success([])
  {
    if |records| > 0 {
      BackboneWithoutAtoms(records[..|records| - 1], number);
    }
  }

  class PdbParser {
    /** The backbone atom positions, in file order. */
    var backbone: seq<Vec3>
    /** The helix and sheet bond indices; no code fills them. */
    var alphaHelix: set<int>
    var betaSheet: set<int>

    /** The field initialisers, lines 20-22: all three collections empty. */
    constructor ()
      ensures backbone == [] && alphaHelix == {} && betaSheet == {}
    {
      backbone, alphaHelix, betaSheet := [], {}, {};
    }

    /** parseAtom(record), lines 56-67: appends the point of a backbone
        atom, throws as AtomPoint says, and changes nothing else. */
    method ParseAtom(record: string, number: string -> Option<real>) returns (r: Outcome<PdbError>)
      modifies this
      ensures alphaHelix == old(alphaHelix) && betaSheet == old(betaSheet)
      ensures r.Fail? <==> AtomPoint(record, number).Failure?
      ensures r.Fail? ==> r.error == AtomPoint(record, number).error && backbone == old(backbone)
      ensures r.Pass? && AtomPoint(record, number).value.Some? ==> backbone == old(backbone) + [AtomPoint(record, number).value.value]
      ensures r.Pass? && AtomPoint(record, number).value.None? ==> backbone == old(backbone)
    {
      var name := Columns(record, 13, 16);
      if name.Failure? {
        return Fail(name.error);
      }
      if name.value[0] == 'N' || name.value[0] == 'C' || name.value[..2] == "CA" {
        var x := Coordinate(record, 31, 38, number);
        if x.Failure? {
          return Fail(x.error);
        }
        var y := Coordinate(record, 39, 46, number);
        if y.Failure? {
          return Fail(y.error);
        }
        var z := Coordinate(record, 47, 54, number);
        if z.Failure? {
          return Fail(z.error);
        }
        backbone := backbone + [Vec3(x.value, y.value, z.value)];
      }
      r := Pass;
    }
  }

  /** PDBParser(pdbId), lines 30-49: a missing file is reported and leaves
      every collection empty; otherwise the records are dispatched in order
      and the first exception escapes. The helix and sheet sets stay
      empty. */
  method Read(file: Option<seq<string>>, number: string -> Option<real>) returns (r: Result<PdbParser, PdbError>)
    ensures file.None? ==> r.Success? && r.value.backbone == []
    ensures file.Some? ==> (r.Failure? <==> Backbone(file.value, number).Failure?)
    ensures file.Some? && r.Failure? ==> r.error == Backbone(file.value, number).error
    ensures file.Some? && r.Success? ==> r.value.backbone == Backbone(file.value, number).value
    ensures r.Success? ==> fresh(r.value) && r.value.alphaHelix == {} && r.value.betaSheet == {}
  {
    var parser := new PdbParser();
    if file.None? {
      return Success(parser);
    }
    var records := file.value;
    for t := 0 to |records|
      invariant Backbone(records[..t], number) == Success(parser.backbone)
      invariant parser.alphaHelix == {} && parser.betaSheet == {}
    {
      var record := records[t];
      assert records[..t + 1][..t] == records[..t];
      var kind := RecordType(record);
      if kind.None? {
        BackboneFailureStays(records, t + 1, number);
        return Failure(NoToken);
      }
      if kind.value == "ATOM" {
        var o := parser.ParseAtom(record, number);
        if o.Fail? {
          BackboneFailureStays(records, t + 1, number);
          return Failure(o.error);
        }
      }
    }
    assert records[..|records|] == records;
    r := Success(parser);
  }
}
