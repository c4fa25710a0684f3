/** A section that announces its length is read within it, whatever is nested inside or comes after. */
module Containment {
  import opened Bytes
  import opened Streams
  import opened FieldCodec

  lemma LengthReads(section: bytes, rest: bytes)
    requires |section| < 0x1_0000_0000
    ensures var w := BigEndian(|section|, 4) + section + rest;
      Number(w, 4) == Got(|section|, 4) && w[4..] == section + rest
  {
    hide BigEndian, Number;
    Widths();
    NumberOnPrefix(|section|, 4, section + rest);
    var length := BigEndian(|section|, 4);
    assert length + section + rest == length + (section + rest);
    assert |length| == 4 && (length + (section + rest))[4..] == section + rest;
  }

  /** Nothing behind an array's section changes what the array is, and none of it is consumed. */
  lemma ArraysStayInside(section: bytes, rest: bytes)
    requires |section| < 0x1_0000_0000
    ensures var r := ReadArray(BigEndian(|section|, 4) + section + rest);
      && r == ReadArray(BigEndian(|section|, 4) + section + [])
      && r.used <= 4 + |section|
  {
    hide ReadElems, BigEndian, Number;
    LengthReads(section, rest);
    LengthReads(section, []);
    assert Limited(section + rest, |section|) == section;
    assert Limited(section + [], |section|) == section;
  }

  /** The same for a table, which moreover consumes its section to the end. */
  lemma TablesStayInside(section: bytes, rest: bytes)
    requires |section| <= MAX_LONGSTR
    ensures var r := ReadTable(BigEndian(|section|, 4) + section + rest);
      && r == ReadTable(BigEndian(|section|, 4) + section + [])
      && r.used == 4 + |section|
      && (r.Got? <==> ReadEntries(section).Got?)
  {
    hide ReadEntries, BigEndian, Number;
    LengthReads(section, rest);
    LengthReads(section, []);
    FullOnPrefix(section, rest);
    FullOnPrefix(section, []);
    assert (section + rest)[..|section|] == section && (section + [])[..|section|] == section;
  }

  /** But a longer table is read as empty, and its section is left to be read as something else. */
  lemma LongerTablesAreLost(section: bytes, rest: bytes)
    requires MAX_LONGSTR < |section| < 0x1_0000_0000
    ensures ReadTable(BigEndian(|section|, 4) + section + rest) == Got(map[], 4)
  {
    hide BigEndian, Number;
    LengthReads(section, rest);
  }
}
