/** Python's str.join and str.split. */
module Text {

  // separator.join(pieces)
  function Join(separator: string, pieces: seq<string>): string {
    if pieces == [] then ""
    else if |pieces| == 1 then pieces[0]
    else pieces[0] + separator + Join(separator, pieces[1..])
  }

  // s.split(separator)
  function Split(s: string, separator: char): (pieces: seq<string>)
    ensures pieces != []
  {
    if s == "" then [""]
    else
      var rest := Split(s[1..], separator);
      if s[0] == separator then [""] + rest else [[s[0]] + rest[0]] + rest[1..]
  }

  /** Joining with the separator undoes splitting at it. */
  lemma {:induction false} JoinSplit(s: string, separator: char)
    ensures Join([separator], Split(s, separator)) == s
  {
    if s != "" {
      var rest := Split(s[1..], separator);
      JoinSplit(s[1..], separator);
      if s[0] == separator {
        assert ([""] + rest)[1..] == rest;
        assert Join([separator], Split(s, separator)) == "" + [separator] + Join([separator], rest);
      } else {
        assert ([[s[0]] + rest[0]] + rest[1..])[1..] == rest[1..];
        if |rest| > 1 {
          assert Join([separator], Split(s, separator))
              == [s[0]] + rest[0] + [separator] + Join([separator], rest[1..]);
        }
      }
      assert s == [s[0]] + s[1..];
    }
  }

  lemma {:induction false} SplitPrefix(piece: string, rest: string, separator: char)
    requires separator !in piece
    ensures Split(piece + [separator] + rest, separator) == [piece] + Split(rest, separator)
  {
    var s := piece + [separator] + rest;
    if piece == "" {
      assert s[1..] == rest;
    } else {
      assert s[1..] == piece[1..] + [separator] + rest;
      assert piece[0] in piece && [piece[0]] + piece[1..] == piece;
      SplitPrefix(piece[1..], rest, separator);
      assert ([piece[1..]] + Split(rest, separator))[1..] == Split(rest, separator);
    }
  }

  lemma {:induction false} SplitWhole(piece: string, separator: char)
    requires separator !in piece
    ensures Split(piece, separator) == [piece]
  {
    if piece != "" {
      assert piece[0] in piece && [piece[0]] + piece[1..] == piece;
      SplitWhole(piece[1..], separator);
    }
  }

  /** Splitting undoes joining when no piece contains the separator. */
  lemma {:induction false} SplitJoin(pieces: seq<string>, separator: char)
    requires pieces != [] && forall i :: 0 <= i < |pieces| ==> separator !in pieces[i]
    ensures Split(Join([separator], pieces), separator) == pieces
    decreases |pieces|
  {
    if |pieces| == 1 {
      SplitWhole(pieces[0], separator);
    } else {
      SplitPrefix(pieces[0], Join([separator], pieces[1..]), separator);
      SplitJoin(pieces[1..], separator);
    }
  }
}
