/** The printed mapping, and that reading any line around it restores it. */
module MappingPrinter {
  import opened Types
  import opened ProductionConfig
  import opened FieldParser
  import opened MappingText
  import opened QuotedText

  datatype Field = Field(name: string, value: string)

  function Fields(m: ProductionMapping): (fields: seq<Field>)
    ensures |fields| == 8
  {
    [Field("cncProfile", MASSO_KEY),
     Field("deadman", ControlName(m.deadmanMask)),
     Field("continuous", ControlName(m.continuousMask)),
     Field("resolution", ControlName(m.resolutionMask)),
     Field("faceA", ActionName(m.faceA)),
     Field("faceB", ActionName(m.faceB)),
     Field("faceX", ActionName(m.faceX)),
     Field("faceY", ActionName(m.faceY))]
  }

  function Entry(f: Field): string {
    "\"" + f.name + "\":\"" + f.value + "\""
  }

  /** The fields as they are printed, separated by commas. */
  function Text(fields: seq<Field>): string
    requires fields != []
  {
    if |fields| == 1 then Entry(fields[0]) else Entry(fields[0]) + "," + Text(fields[1..])
  }

  /** The same text cut at its quotes, together with what follows it. */
  function Pieces(fields: seq<Field>, tail: string): (pieces: seq<string>)
    requires fields != []
    ensures |pieces| == 4 * |fields|
  {
    var f := fields[0];
    if |fields| == 1 then [f.name, ":", f.value, tail] else [f.name, ":", f.value, ","] + Pieces(fields[1..], tail)
  }

  lemma OnePiece(piece: string, rest: seq<string>)
    requires rest != []
    ensures Quoted([piece] + rest) == piece + "\"" + Quoted(rest)
  {
    assert ([piece] + rest)[1..] == rest;
  }

  lemma EntryPieces(f: Field, next: seq<string>)
    requires next != []
    ensures "\"" + Quoted([f.name, ":", f.value] + next) == Entry(f) + Quoted(next)
  {
    hide Quoted;
    assert [f.name, ":", f.value] + next == [f.name] + ([":"] + ([f.value] + next));
    OnePiece(f.value, next);
    OnePiece(":", [f.value] + next);
    OnePiece(f.name, [":"] + ([f.value] + next));
  }

  lemma {:induction false} TextIsPieces(fields: seq<Field>, tail: string)
    requires fields != []
    ensures "\"" + Quoted(Pieces(fields, tail)) == Text(fields) + tail
  {
    hide Quoted, Entry;
    var f := fields[0];
    if |fields| == 1 {
      EntryPieces(f, [tail]);
      assert [f.name, ":", f.value] + [tail] == Pieces(fields, tail);
      LastPiece(tail);
    } else {
      var rest := Pieces(fields[1..], tail);
      TextIsPieces(fields[1..], tail);
      EntryPieces(f, [","] + rest);
      OnePiece(",", rest);
      assert [f.name, ":", f.value] + ([","] + rest) == Pieces(fields, tail);
      Regroup(Entry(f), Quoted(rest), Text(fields[1..]), tail);
    }
  }

  lemma LastPiece(piece: string)
    ensures Quoted([piece]) == piece
  {
  }

  lemma Regroup(entry: string, quoted: string, text: string, tail: string)
    requires "\"" + quoted == text + tail
    ensures entry + ("," + "\"" + quoted) == entry + "," + text + tail
  {
    assert "," + "\"" + quoted == "," + ("\"" + quoted);
  }

  lemma {:induction false} PieceAt(fields: seq<Field>, tail: string, k: nat)
    requires k < |fields|
    ensures var p := Pieces(fields, tail);
            && p[4 * k] == fields[k].name && p[4 * k + 1] == ":" && p[4 * k + 2] == fields[k].value
            && p[4 * k + 3] in {",", tail}
  {
    if k > 0 {
      PieceAt(fields[1..], tail, k - 1);
    }
  }

  /** Names stand for themselves: no other piece of the line looks like one. */
  ghost predicate WellNamed(head: seq<string>, fields: seq<Field>, tail: string) {
    && QuoteFree(head) && '"' !in tail
    && (forall k :: 0 <= k < |fields| ==> '"' !in fields[k].name && '"' !in fields[k].value)
    && (forall k :: 0 <= k < |fields| ==> fields[k].name !in head && fields[k].name !in {":", ",", tail})
    && (forall k, i :: 0 <= k < |fields| && 0 <= i < |fields| ==>
          fields[k].name != fields[i].value && (fields[k].name == fields[i].name ==> k == i))
  }

  lemma FieldIsSaid(head: seq<string>, fields: seq<Field>, tail: string, k: nat)
    requires WellNamed(head, fields, tail) && head != [] && k < |fields|
    ensures Says(Quoted(head + Pieces(fields, tail)), BareKey(fields[k].name) + "\"", fields[k].value)
  {
    hide Says, Quoted, Pieces, BareKey;
    var p := Pieces(fields, tail);
    var all, j := head + p, |head| + 4 * k;
    PieceAt(fields, tail, k);
    forall i | 0 <= i < |p|
      ensures '"' !in p[i] && (i != 4 * k ==> p[i] != fields[k].name)
    {
      PieceAt(fields, tail, i / 4);
      assert i == 4 * (i / 4) || i == 4 * (i / 4) + 1 || i == 4 * (i / 4) + 2 || i == 4 * (i / 4) + 3;
    }
    assert forall i :: 0 <= i < |all| ==> all[i] == if i < |head| then head[i] else p[i - |head|];
    PiecesSay(all, j);
  }

  const FIELD_NAMES :=
    ["cncProfile", "deadman", "continuous", "resolution", "faceA", "faceB", "faceX", "faceY"]

  /** Values and names differ in their first letter already. */
  predicate LooksLikeValue(value: string) {
    '"' !in value && 0 < |value| < 20 && value[0] in {'m', 'L', 'R', 'U', 'C', 'S'}
  }

  predicate LooksLikeName(name: string) {
    '"' !in name && 0 < |name| <= 10 && name[0] in {'c', 'd', 'r', 'f'}
  }

  lemma NamesAreNames(k: nat)
    requires k < 8
    ensures LooksLikeName(FIELD_NAMES[k])
  {
  }

  lemma NamesAreDistinct(k: nat, i: nat)
    requires k < 8 && i < 8 && FIELD_NAMES[k] == FIELD_NAMES[i]
    ensures k == i
  {
  }

  lemma ValuesAreValues(m: ProductionMapping, k: nat)
    requires IsValid(m) && k < 8
    ensures Fields(m)[k].name == FIELD_NAMES[k] && LooksLikeValue(Fields(m)[k].value)
  {
    hide Validate, IsSafeFaceAction;
    ValidFields(m);
    ControlNamesAreValues(m.deadmanMask);
    ControlNamesAreValues(m.continuousMask);
    ControlNamesAreValues(m.resolutionMask);
    ActionNamesAreValues(m.faceA);
    ActionNamesAreValues(m.faceB);
    ActionNamesAreValues(m.faceX);
    ActionNamesAreValues(m.faceY);
    ProfileKeyIsValue();
    hide ControlName, ActionName, LooksLikeValue;
  }

  lemma ControlNamesAreValues(mask: bv32)
    ensures mask in {L1, R1, L2, R2, 0} ==> LooksLikeValue(ControlName(mask))
  {
  }

  lemma ActionNamesAreValues(action: ButtonAction)
    ensures LooksLikeValue(ActionName(action))
  {
  }

  lemma ProfileKeyIsValue()
    ensures LooksLikeValue(MASSO_KEY)
  {
  }

  /** What stands around the fields uses none of their names as a quoted word. */
  predicate Surrounds(head: seq<string>, tail: string) {
    && head != [] && QuoteFree(head) && '"' !in tail
    && (forall k :: 0 <= k < 8 ==> FIELD_NAMES[k] !in head && FIELD_NAMES[k] != tail)
  }

  lemma FieldsAreWellNamed(head: seq<string>, tail: string, m: ProductionMapping)
    requires IsValid(m) && Surrounds(head, tail)
    ensures WellNamed(head, Fields(m), tail)
  {
    hide Fields, IsValid;
    var fields := Fields(m);
    forall k | 0 <= k < 8
      ensures fields[k].name == FIELD_NAMES[k] && LooksLikeName(fields[k].name) && LooksLikeValue(fields[k].value)
    {
      NamesAreNames(k);
      ValuesAreValues(m, k);
    }
    forall k, i | 0 <= k < 8 && 0 <= i < 8 && fields[k].name == fields[i].name
      ensures k == i
    {
      NamesAreDistinct(k, i);
    }
  }

  /** The line says every field of the mapping. */
  ghost predicate SaysFields(line: string, m: ProductionMapping) {
    forall k :: 0 <= k < 8 ==> SaysField(line, Fields(m)[k].name, Fields(m)[k].value)
  }

  lemma SaysAllFields(line: string, m: ProductionMapping, current: ProductionMapping)
    requires IsValid(m) && current.precisionMask == m.precisionMask
    requires SaysFields(line, m)
    ensures ParseMapping(line, current) == Some(m)
  {
    hide ParseMapping, ControlName, ActionName, SaysField, Validate, IsSafeFaceAction, Key;
    ValidFields(m);
    var f := Fields(m);
    assert SaysField(line, f[0].name, f[0].value) && SaysField(line, f[1].name, f[1].value);
    assert SaysField(line, f[2].name, f[2].value) && SaysField(line, f[3].name, f[3].value);
    assert SaysField(line, f[4].name, f[4].value) && SaysField(line, f[5].name, f[5].value);
    assert SaysField(line, f[6].name, f[6].value) && SaysField(line, f[7].name, f[7].value);
    SaidOccurs(line, "cncProfile", MASSO_KEY);
    ParsesExactly(line, current, m);
  }

  lemma SaidOccurs(line: string, name: string, value: string)
    requires SaysField(line, name, value)
    ensures Occurrences(line, Key(name)) != {}
  {
  }

  /** A printed mapping is read back from any line that uses its field names nowhere else. */
  lemma PrintedIsRead(head: seq<string>, tail: string, m: ProductionMapping, current: ProductionMapping)
    requires IsValid(m) && Surrounds(head, tail)
    requires current.precisionMask == m.precisionMask
    ensures ParseMapping(Quoted(head) + Text(Fields(m)) + tail, current) == Some(m)
  {
    hide ParseMapping, IsValid, Fields, Says, Text, Pieces;
    var line := Quoted(head) + Text(Fields(m)) + tail;
    LineIsPieces(head, Fields(m), tail);
    FieldsAreWellNamed(head, tail, m);
    forall k | 0 <= k < 8
      ensures SaysField(line, Fields(m)[k].name, Fields(m)[k].value)
    {
      FieldIsSaid(head, Fields(m), tail, k);
      assert BareKey(Fields(m)[k].name) + "\"" == Key(Fields(m)[k].name);
    }
    SaysAllFields(line, m, current);
  }

  lemma LineIsPieces(head: seq<string>, fields: seq<Field>, tail: string)
    requires head != [] && fields != []
    ensures Quoted(head) + Text(fields) + tail == Quoted(head + Pieces(fields, tail))
  {
    hide Quoted, Text, Pieces;
    QuotedJoins(head, Pieces(fields, tail));
    TextIsPieces(fields, tail);
    assert Quoted(head) + "\"" + Quoted(Pieces(fields, tail)) == Quoted(head) + ("\"" + Quoted(Pieces(fields, tail)));
    assert Quoted(head) + (Text(fields) + tail) == Quoted(head) + Text(fields) + tail;
  }

  lemma {:induction false} EntryInText(fields: seq<Field>, k: nat) returns (i: nat)
    requires k < |fields|
    ensures OccursAt(Text(fields), Entry(fields[k]), i)
  {
    hide Entry;
    if k == 0 {
      i := 0;
    } else {
      var skip := Entry(fields[0]) + ",";
      i := EntryInText(fields[1..], k - 1);
      assert Text(fields) == skip + Text(fields[1..]);
      StandsBehind(skip, Text(fields[1..]), Entry(fields[k]), i);
      i := i + |skip|;
    }
  }

  lemma StandsBehind(before: string, text: string, key: string, i: nat)
    requires OccursAt(text, key, i)
    ensures OccursAt(before + text, key, |before| + i)
  {
    assert (before + text)[|before| + i..|before| + i + |key|] == text[i..i + |key|];
  }

  lemma StandsInside(text: string, after: string, key: string, i: nat)
    requires OccursAt(text, key, i)
    ensures OccursAt(text + after, key, i)
  {
    assert (text + after)[i..i + |key|] == text[i..i + |key|];
  }

  /** Whatever stands around it, a printed mapping is read back when each key stands there only once. */
  lemma PrintedAnywhereIsRead(before: string, after: string, m: ProductionMapping, current: ProductionMapping)
    requires IsValid(m) && current.precisionMask == m.precisionMask
    requires var line := before + Text(Fields(m)) + after;
             forall name <- FIELD_NAMES :: |Occurrences(line, Key(name))| == 1
    ensures ParseMapping(before + Text(Fields(m)) + after, current) == Some(m)
  {
    hide ParseMapping, IsValid, Fields, Text, Occurrences;
    var line := before + Text(Fields(m)) + after;
    forall k | 0 <= k < 8
      ensures SaysField(line, Fields(m)[k].name, Fields(m)[k].value)
    {
      var f := Fields(m)[k];
      ValuesAreValues(m, k);
      assert FIELD_NAMES[k] in FIELD_NAMES;
      var i := EntryInText(Fields(m), k);
      StandsBehind(before, Text(Fields(m)), Entry(f), i);
      StandsInside(before + Text(Fields(m)), after, Entry(f), |before| + i);
      assert Entry(f) == Key(f.name) + f.value + "\"";
    }
    SaysAllFields(line, m, current);
  }
}
