/** minmea.c: the comma-separated fields of a sentence, and the places the scanner's field
    pointer stops at. */
module NmeaFields {
  import opened NmeaFrame
  import opened NmeaNumber

  /** The text a scan can reach: everything before the first * or unprintable byte. */
  function Reach(s: seq<byte>): seq<byte> {
    if s == [] || !Legal(s[0]) then [] else [s[0]] + Reach(s[1..])
  }

  /** A text cut at its commas. */
  function Split(text: seq<byte>): (fields: seq<seq<byte>>)
    ensures fields != []
  {
    if text == [] then [[]]
    else
      var rest := Split(text[1..]);
      if text[0] == COMMA then [[]] + rest else [[text[0]] + rest[0]] + rest[1..]
  }

  function Fields(s: seq<byte>): (fields: seq<seq<byte>>)
    ensures fields != []
  {
    Split(Reach(s))
  }

  /** The rest of the sentence from each place where a field starts, as stepping from one field
      over its comma to the next finds them. */
  function Suffixes(s: seq<byte>): (views: seq<seq<byte>>)
    ensures views != [] && views[0] == s
    decreases |s|
  {
    var n := |FieldText(s)|;
    if At(s, n) == COMMA then [s] + Suffixes(s[n + 1..]) else [s]
  }

  /** Stepping finds every field of the text and no more, each in its place. */
  lemma {:induction false} SuffixesAreFields(s: seq<byte>)
    ensures |Suffixes(s)| == |Fields(s)|
    ensures forall k :: 0 <= k < |Suffixes(s)| ==> FieldText(Suffixes(s)[k]) == Fields(s)[k]
    decreases |s|
  {
    var n := |FieldText(s)|;
    SplitFirst(s);
    if At(s, n) == COMMA {
      SuffixesAreFields(s[n + 1..]);
    }
  }

  lemma {:induction false} SplitFirst(s: seq<byte>)
    ensures var n := |FieldText(s)|;
      Fields(s) == [FieldText(s)] + if At(s, n) == COMMA then Fields(s[n + 1..]) else []
  {
    if s != [] && FieldByte(s[0]) {
      SplitFirst(s[1..]);
      assert Reach(s)[1..] == Reach(s[1..]);
      var n := |FieldText(s[1..])|;
      if At(s, n + 1) == COMMA {
        assert s[1..][n + 1..] == s[n + 2..];
      }
    } else if s != [] && s[0] == COMMA {
      assert Reach(s)[1..] == Reach(s[1..]);
    }
  }

  /** Fields hold no comma, and joining them with commas gives the text back. */
  lemma {:induction false} JoinsBack(text: seq<byte>)
    ensures Join(Split(text)) == text
    ensures forall k :: 0 <= k < |Split(text)| ==> COMMA !in Split(text)[k]
  {
    if text != [] {
      JoinsBack(text[1..]);
      var rest := Split(text[1..]);
      if text[0] == COMMA {
        assert ([[]] + rest)[1..] == rest;
      } else {
        assert Split(text)[1..] == rest[1..];
      }
    }
  }

  function Join(fields: seq<seq<byte>>): seq<byte>
    requires fields != []
  {
    if |fields| == 1 then fields[0] else fields[0] + [COMMA] + Join(fields[1..])
  }
}
