/** Where a quoted key can stand in a line, read off the pieces between the line's quotes. */
module QuotedText {
  import opened FieldParser

  /** The pieces joined by quotes. */
  function Quoted(pieces: seq<string>): string
    requires pieces != []
  {
    if |pieces| == 1 then pieces[0] else pieces[0] + "\"" + Quoted(pieces[1..])
  }

  predicate QuoteFree(pieces: seq<string>) {
    forall k :: 0 <= k < |pieces| ==> '"' !in pieces[k]
  }

  /** The place of the quote in front of piece `j`. */
  function QuoteBefore(pieces: seq<string>, j: nat): nat
    requires 1 <= j < |pieces|
  {
    if j == 1 then |pieces[0]| else |pieces[0]| + 1 + QuoteBefore(pieces[1..], j - 1)
  }

  /** A quoted name and its colon. */
  function BareKey(name: string): (key: string)
    ensures key != ""
  {
    "\"" + name + "\":"
  }

  lemma {:induction false} QuotedJoins(first: seq<string>, second: seq<string>)
    requires first != [] && second != []
    ensures Quoted(first + second) == Quoted(first) + "\"" + Quoted(second)
  {
    if |first| > 1 {
      assert (first + second)[1..] == first[1..] + second;
      QuotedJoins(first[1..], second);
    } else {
      assert (first + second)[1..] == second;
    }
  }

  /** The line from the quote in front of piece `j` on. */
  lemma {:induction false} QuoteSplits(pieces: seq<string>, j: nat)
    requires 1 <= j < |pieces|
    ensures var line, q := Quoted(pieces), QuoteBefore(pieces, j);
            q < |line| && line[q..] == "\"" + Quoted(pieces[j..])
  {
    var rest := Quoted(pieces[1..]);
    assert Quoted(pieces) == pieces[0] + "\"" + rest;
    if j > 1 {
      QuoteSplits(pieces[1..], j - 1);
      assert pieces[1..][j - 1..] == pieces[j..];
      assert Quoted(pieces)[|pieces[0]| + 1..] == rest;
    }
  }

  /** Equal starts up to their first quote. */
  lemma FirstPieceIsName(name: string, piece: string, a: string, b: string)
    requires '"' !in name && '"' !in piece
    requires name + "\"" + a == piece + "\"" + b
    ensures name == piece && a == b
  {
    var x := name + "\"" + a;
    assert x[|name|] == '"' && x[|piece|] == '"';
    assert forall k :: 0 <= k < |name| ==> x[k] == name[k] != '"';
    assert forall k :: 0 <= k < |piece| ==> x[k] == piece[k] != '"';
    assert name == x[..|name|] == piece;
    assert a == x[|name| + 1..] == b;
  }

  /** A key can only stand in front of a piece that is its name. */
  lemma {:induction false} KeyStandsAtName(pieces: seq<string>, name: string, i: nat) returns (j: nat)
    requires pieces != [] && QuoteFree(pieces) && '"' !in name
    requires OccursAt(Quoted(pieces), BareKey(name), i)
    ensures 1 <= j < |pieces| && pieces[j] == name && i == QuoteBefore(pieces, j)
  {
    var line, key := Quoted(pieces), BareKey(name);
    assert line[i..i + |key|][0] == line[i] == '"';
    assert |pieces| > 1;
    var rest, skip := Quoted(pieces[1..]), |pieces[0]| + 1;
    assert line == pieces[0] + "\"" + rest;
    assert forall k :: 0 <= k < |pieces[0]| ==> line[k] == pieces[0][k] != '"';
    if i == |pieces[0]| {
      j := 1;
      StartsWithKey(pieces[1..], name, line[i + 1..]);
    } else {
      assert line[skip..] == rest;
      assert rest[i - skip..i - skip + |key|] == line[i..i + |key|];
      j := KeyStandsAtName(pieces[1..], name, i - skip);
      j := j + 1;
    }
  }

  lemma StartsWithKey(pieces: seq<string>, name: string, line: string)
    requires pieces != [] && QuoteFree(pieces) && '"' !in name
    requires line == Quoted(pieces) && OccursAt("\"" + line, BareKey(name), 0)
    ensures pieces[0] == name
  {
    var key := BareKey(name);
    var after := ("\"" + line)[|key|..];
    assert "\"" + line == key + after;
    assert line == (key + after)[1..] == name + "\"" + (":" + after);
    assert line[|name|] == '"';
    assert |pieces| > 1;
    FirstPieceIsName(name, pieces[0], ":" + after, Quoted(pieces[1..]));
  }

  /** A name that is one piece only, followed by a colon, makes a key that stands exactly once. */
  lemma OneNameOneKey(pieces: seq<string>, j: nat)
    requires QuoteFree(pieces) && 1 <= j < |pieces| - 1
    requires forall k :: 0 <= k < |pieces| && k != j ==> pieces[k] != pieces[j]
    requires pieces[j + 1] != "" && pieces[j + 1][0] == ':'
    ensures Occurrences(Quoted(pieces), BareKey(pieces[j])) == {QuoteBefore(pieces, j)}
  {
    var line, name, q := Quoted(pieces), pieces[j], QuoteBefore(pieces, j);
    QuoteSplits(pieces, j);
    KeyInFront(pieces[j..], line[q..]);
    assert line[q..q + |BareKey(name)|] == line[q..][..|BareKey(name)|];
    assert OccursAt(line, BareKey(name), q);
    forall i | i in Occurrences(line, BareKey(name))
      ensures i == q
    {
      var k := KeyStandsAtName(pieces, name, i);
    }
  }

  lemma KeyInFront(pieces: seq<string>, line: string)
    requires |pieces| > 1 && pieces[1] != "" && pieces[1][0] == ':'
    requires line == "\"" + Quoted(pieces)
    ensures |BareKey(pieces[0])| <= |line| && line[..|BareKey(pieces[0])|] == BareKey(pieces[0])
  {
    var rest := Quoted(pieces[1..]);
    assert rest[0] == ':';
    assert line == "\"" + pieces[0] + "\"" + rest;
  }

  /** The text right behind the key: the rest of the next piece and everything after it. */
  lemma BehindKey(pieces: seq<string>, j: nat)
    requires QuoteFree(pieces) && 1 <= j < |pieces| - 1
    requires pieces[j + 1] != "" && pieces[j + 1][0] == ':'
    ensures var line, end := Quoted(pieces), QuoteBefore(pieces, j) + |BareKey(pieces[j])|;
            end <= |line| && line[end..] == Quoted(pieces[j + 1..])[1..]
  {
    var line, q := Quoted(pieces), QuoteBefore(pieces, j);
    QuoteSplits(pieces, j);
    assert pieces[j..][1..] == pieces[j + 1..];
    var rest := Quoted(pieces[j + 1..]);
    assert line[q..] == "\"" + pieces[j] + "\"" + rest;
    var k := |pieces[j]| + 3;
    assert rest != "";
    assert line[q..][k..] == rest[1..];
    assert line[q + k..] == line[q..][k..];
  }

  /** The line from a name on, when a colon, a value and another quote follow. */
  lemma NameThenValue(pieces: seq<string>, j: nat)
    requires QuoteFree(pieces) && 1 <= j < |pieces| - 3 && pieces[j + 1] == ":"
    ensures var line, q := Quoted(pieces), QuoteBefore(pieces, j);
            && q < |line|
            && line[q..] == BareKey(pieces[j]) + "\"" + pieces[j + 2] + "\"" + Quoted(pieces[j + 3..])
  {
    QuoteSplits(pieces, j);
    assert pieces[j..][1..] == pieces[j + 1..] && pieces[j + 1..][1..] == pieces[j + 2..];
    assert pieces[j + 2..][1..] == pieces[j + 3..];
    var name, value, after := pieces[j], pieces[j + 2], Quoted(pieces[j + 3..]);
    assert Quoted(pieces[j + 2..]) == value + "\"" + after;
    assert Quoted(pieces[j + 1..]) == ":" + "\"" + (value + "\"" + after);
    assert Quoted(pieces[j..]) == name + "\"" + (":" + "\"" + (value + "\"" + after));
  }

  lemma StartOccurs(line: string, i: nat, text: string, after: string)
    requires i <= |line| && line[i..] == text + after
    ensures OccursAt(line, text, i)
  {
    assert line[i..i + |text|] == line[i..][..|text|];
  }

  /** A longer key stands at most where its start stands. */
  lemma LongerKeyStandsThere(line: string, key: string, more: string, q: nat)
    requires Occurrences(line, key) == {q} && OccursAt(line, key + more, q)
    ensures Occurrences(line, key + more) == {q}
  {
    forall i | i in Occurrences(line, key + more)
      ensures i == q
    {
      assert line[i..i + |key|] == line[i..i + |key + more|][..|key|] == key;
      assert i in Occurrences(line, key);
    }
  }

  /** A key that stands once, with a quoted value behind it. */
  lemma ValueBehindKey(line: string, bare: string, value: string, after: string, q: nat)
    requires Occurrences(line, bare) == {q}
    requires q <= |line| && line[q..] == bare + "\"" + value + "\"" + after
    ensures Says(line, bare + "\"", value)
  {
    var key := bare + "\"";
    StartOccurs(line, q, key + value + "\"", after);
    assert line[q..] == key + (value + "\"" + after);
    StartOccurs(line, q, key, value + "\"" + after);
    LongerKeyStandsThere(line, bare, "\"", q);
  }

  /** A quoted value between a once-standing name and a further quote is what the line says. */
  lemma PiecesSay(pieces: seq<string>, j: nat)
    requires QuoteFree(pieces) && 1 <= j < |pieces| - 3
    requires forall k :: 0 <= k < |pieces| && k != j ==> pieces[k] != pieces[j]
    requires pieces[j + 1] == ":"
    ensures Says(Quoted(pieces), BareKey(pieces[j]) + "\"", pieces[j + 2])
  {
    hide Quoted, QuoteBefore, BareKey, Says;
    OneNameOneKey(pieces, j);
    NameThenValue(pieces, j);
    ValueBehindKey(Quoted(pieces), BareKey(pieces[j]), pieces[j + 2], Quoted(pieces[j + 3..]), QuoteBefore(pieces, j));
  }
}
