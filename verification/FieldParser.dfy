/** The setup channel's narrow field reader, and the mapping text it must read back. Bytes are `char`. */
module FieldParser {
  import opened Types

  predicate OccursAt(line: string, key: string, i: nat) {
    i + |key| <= |line| && line[i..i + |key|] == key
  }

  /** Every place a key stands, overlapping ones included. */
  function Occurrences(line: string, key: string): set<nat> {
    set i | 0 <= i <= |line| && OccursAt(line, key, i)
  }

  /** The first occurrence at or after `from`. */
  function StrStr(line: string, key: string, from: nat): (r: Option<nat>)
    requires from <= |line|
    ensures r.Some? ==> from <= r.value && OccursAt(line, key, r.value)
    ensures forall i :: from <= i < (if r.Some? then r.value else |line| + 1) ==> !OccursAt(line, key, i)
    decreases |line| - from
  {
    if from + |key| > |line| then None
    else if OccursAt(line, key, from) then Some(from)
    else StrStr(line, key, from + 1)
  }

  function StrChr(line: string, c: char, from: nat): (r: Option<nat>)
    requires from <= |line|
    ensures r.Some? ==> from <= r.value < |line| && line[r.value] == c && c !in line[from..r.value]
    ensures r.None? ==> c !in line[from..]
    decreases |line| - from
  {
    if from == |line| then None else if line[from] == c then Some(from) else StrChr(line, c, from + 1)
  }

  /** The position just behind the key, provided there is only one. */
  function FindOnce(line: string, key: string): Option<nat>
    requires key != ""
  {
    match StrStr(line, key, 0)
    case None => None
    case Some(i) => if StrStr(line, key, i + 1).Some? then None else Some(i + |key|)
  }

  /** On any line: found exactly when the key stands there once, and then right behind it. */
  lemma FindOnceIsUnique(line: string, key: string)
    requires key != ""
    ensures FindOnce(line, key).Some? <==> |Occurrences(line, key)| == 1
    ensures FindOnce(line, key).Some? ==>
              var end := FindOnce(line, key).value;
              |key| <= end <= |line| && Occurrences(line, key) == {end - |key|}
  {
    var all := Occurrences(line, key);
    match StrStr(line, key, 0) {
      case None => assert all == {};
      case Some(i) =>
        match StrStr(line, key, i + 1) {
          case None =>
            assert all == {i};
          case Some(j) =>
            if |all| == 1 {
              assert i in all && j in all;
              SingletonIsUnique(all, i, j);
            }
        }
    }
  }

  lemma SingletonIsUnique(s: set<nat>, a: nat, b: nat)
    requires |s| == 1 && a in s && b in s
    ensures a == b
  {
    assert |s - {a}| == 0;
    assert b !in s - {a};
  }

  /** A quoted value behind its key; `size` is the buffer, terminator included. */
  function ReadString(line: string, key: string, size: nat): (r: Option<string>)
    requires key != ""
  {
    match FindOnce(line, key)
    case None => None
    case Some(start) =>
      FindOnceIsUnique(line, key);
      match StrChr(line, '"', start)
      case None => None
      case Some(end) => if end == start || end - start >= size then None else Some(line[start..end])
  }

  /** The line carries this quoted value behind a key that stands there once. */
  ghost predicate Says(line: string, key: string, value: string) {
    |Occurrences(line, key)| == 1 && exists i: nat :: OccursAt(line, key + value + "\"", i)
  }

  lemma {:induction false} StrChrFinds(line: string, c: char, from: nat, end: nat)
    requires from <= end < |line| && line[end] == c
    requires forall k :: from <= k < end ==> line[k] != c
    ensures StrChr(line, c, from) == Some(end)
    decreases end - from
  {
    if from < end {
      StrChrFinds(line, c, from + 1, end);
    }
  }

  lemma SaidIsRead(line: string, key: string, size: nat, value: string)
    requires key != "" && '"' !in value && 0 < |value| < size
    requires Says(line, key, value)
    ensures ReadString(line, key, size) == Some(value)
  {
    hide StrChr, FindOnce;
    FindOnceIsUnique(line, key);
    var i: nat :| OccursAt(line, key + value + "\"", i);
    PartsOccur(line, key, value, i);
    var start, end := FindOnce(line, key).value, i + |key| + |value|;
    assert i in Occurrences(line, key);
    assert line[start..end] == value;
    forall k | start <= k < end
      ensures line[k] != '"'
    {
      assert line[k] == line[start..end][k - start];
    }
    StrChrFinds(line, '"', start, end);
  }

  lemma ReadIsSaid(line: string, key: string, size: nat, value: string)
    requires key != "" && ReadString(line, key, size) == Some(value)
    ensures Says(line, key, value) && 0 < |value| < size && '"' !in value
  {
    hide StrChr, FindOnce;
    FindOnceIsUnique(line, key);
    var start := FindOnce(line, key).value;
    var end := StrChr(line, '"', start).value;
    var i := start - |key|;
    assert i in Occurrences(line, key);
    assert line[i..end + 1] == line[i..start] + line[start..end] + [line[end]];
    assert OccursAt(line, key + value + "\"", i);
  }

  /** A value is read exactly when the line says it, it is not empty and it fits. */
  lemma ReadStringIsLiteral(line: string, key: string, size: nat, value: string)
    requires key != ""
    ensures ReadString(line, key, size) == Some(value)
            <==> Says(line, key, value) && '"' !in value && 0 < |value| < size
  {
    hide Says, ReadString;
    if Says(line, key, value) && '"' !in value && 0 < |value| < size {
      SaidIsRead(line, key, size, value);
    }
    if ReadString(line, key, size) == Some(value) {
      ReadIsSaid(line, key, size, value);
    }
  }

  lemma PartsOccur(line: string, key: string, value: string, i: nat)
    requires OccursAt(line, key + value + "\"", i)
    ensures OccursAt(line, key, i) && OccursAt(line, value, i + |key|)
    ensures line[i + |key| + |value|] == '"'
  {
    var whole := key + value + "\"";
    var at := line[i..i + |whole|];
    assert line[i..i + |key|] == at[..|key|] == key;
    assert line[i + |key|..i + |key| + |value|] == at[|key|..|key| + |value|] == value;
    assert line[i + |key| + |value|] == at[|key| + |value|];
  }

  predicate IsDigit(c: char) {
    '0' <= c <= '9'
  }

  function DigitsEnd(line: string, from: nat): (end: nat)
    requires from <= |line|
    ensures from <= end <= |line|
    decreases |line| - from
  {
    if from < |line| && IsDigit(line[from]) then DigitsEnd(line, from + 1) else from
  }

  function BlanksEnd(line: string, from: nat): (end: nat)
    requires from <= |line|
    ensures from <= end <= |line|
    decreases |line| - from
  {
    if from < |line| && line[from] in {' ', '\t'} then BlanksEnd(line, from + 1) else from
  }

  /** The decimal value, stuck at the largest 32-bit number once it no longer fits. */
  function Decimal(digits: string): uint32
    requires forall c <- digits :: IsDigit(c)
  {
    if digits == "" then 0
    else
      var n := |digits| - 1;
      assert IsDigit(digits[n]) && forall c <- digits[..n] :: c in digits;
      var value: int := Decimal(digits[..n]) * 10 + (digits[n] as int - '0' as int);
      if value > 0xffff_ffff then 0xffff_ffff else value
  }

  lemma DigitsAreDigits(line: string, from: nat)
    requires from <= |line|
    ensures forall c <- line[from..DigitsEnd(line, from)] :: IsDigit(c)
    decreases |line| - from
  {
    if from < |line| && IsDigit(line[from]) {
      DigitsAreDigits(line, from + 1);
      assert line[from..DigitsEnd(line, from)] == [line[from]] + line[from + 1..DigitsEnd(line, from)];
    }
  }

  /** A number behind its key, ended by a comma, a brace or the end of the line. */
  function ReadUnsigned(line: string, key: string): Option<uint32>
    requires key != ""
  {
    match FindOnce(line, key)
    case None => None
    case Some(start) =>
      FindOnceIsUnique(line, key);
      if start == |line| || !IsDigit(line[start]) then None
      else
        var end := DigitsEnd(line, start);
        var stop := BlanksEnd(line, end);
        DigitsAreDigits(line, start);
        if stop == |line| || line[stop] in {',', '}'} then Some(Decimal(line[start..end])) else None
  }

  /** The number a string of digits stands for. */
  function NumberOf(digits: string): nat
    requires forall c <- digits :: IsDigit(c)
  {
    if digits == "" then 0
    else
      var n := |digits| - 1;
      assert IsDigit(digits[n]) && forall c <- digits[..n] :: c in digits;
      10 * NumberOf(digits[..n]) + (digits[n] as int - 48)
  }

  lemma {:induction false} DecimalSaturates(digits: string)
    requires forall c <- digits :: IsDigit(c)
    ensures Decimal(digits) == if NumberOf(digits) > 0xffff_ffff then 0xffff_ffff else NumberOf(digits)
  {
    if digits != "" {
      var n := |digits| - 1;
      assert IsDigit(digits[n]) && forall c <- digits[..n] :: c in digits;
      DecimalSaturates(digits[..n]);
    }
  }

  lemma {:induction false} DigitsStop(line: string, from: nat, end: nat)
    requires from <= end <= |line| && (forall k :: from <= k < end ==> IsDigit(line[k]))
    requires end < |line| ==> !IsDigit(line[end])
    ensures DigitsEnd(line, from) == end
    decreases end - from
  {
    if from < end {
      DigitsStop(line, from + 1, end);
    }
  }

  lemma {:induction false} BlanksStop(line: string, from: nat, end: nat)
    requires from <= end <= |line| && (forall k :: from <= k < end ==> line[k] in {' ', '\t'})
    requires end < |line| ==> line[end] !in {' ', '\t'}
    ensures BlanksEnd(line, from) == end
    decreases end - from
  {
    if from < end {
      BlanksStop(line, from + 1, end);
    }
  }

  /**
   * Behind a key that stands once, from `start` on: a run of digits up to `end`, blanks up to `stop`. The number
   * is read exactly when there are digits and a comma, a brace or the end of the line follows.
   */
  lemma NumberIsLiteral(line: string, key: string, start: nat, end: nat, stop: nat)
    requires key != "" && |key| <= start && Occurrences(line, key) == {start - |key|}
    requires start <= end <= stop <= |line|
    requires forall k :: start <= k < end ==> '0' <= line[k] <= '9'
    requires end < |line| ==> !('0' <= line[end] <= '9')
    requires forall k :: end <= k < stop ==> line[k] == ' ' || line[k] == '\t'
    requires stop < |line| ==> line[stop] != ' ' && line[stop] != '\t'
    ensures (forall c <- line[start..end] :: IsDigit(c))
    ensures ReadUnsigned(line, key)
            == if start < end && (stop == |line| || line[stop] == ',' || line[stop] == '}') then
                 var number := NumberOf(line[start..end]);
                 Some(if number > 0xffff_ffff then 0xffff_ffff else number)
               else None
  {
    hide FindOnce;
    FindOnceIsUnique(line, key);
    assert start - |key| in Occurrences(line, key) && |Occurrences(line, key)| == 1;
    DigitsStop(line, start, end);
    BlanksStop(line, end, stop);
    DigitsAreDigits(line, start);
    DecimalSaturates(line[start..end]);
  }
}
