/** White space and case of ASCII text. */
module AsciiText {
  predicate Space(c: char) {
    c as int in {9, 10, 11, 12, 13, 28, 29, 30, 31, 32}
  }

  function TrimLeft(s: string): string {
    if s == "" || !Space(s[0]) then s else TrimLeft(s[1..])
  }

  function TrimRight(s: string): string {
    if s == "" || !Space(s[|s| - 1]) then s else TrimRight(s[..|s| - 1])
  }

  function Strip(s: string): string {
    TrimRight(TrimLeft(s))
  }

  function LowerChar(c: char): char {
    if 'A' <= c <= 'Z' then c - 'A' + 'a' else c
  }

  function UpperChar(c: char): char {
    if 'a' <= c <= 'z' then c - 'a' + 'A' else c
  }

  function Upper(s: string): string {
    seq(|s|, i requires 0 <= i < |s| => UpperChar(s[i]))
  }

  function Lower(s: string): string {
    seq(|s|, i requires 0 <= i < |s| => LowerChar(s[i]))
  }

  /** Upper and lower case pair the letters in alphabetical order, and leave everything else alone. */
  lemma CasesPair(c: char)
    ensures 'a' <= c <= 'z' ==> UpperChar(c) as int == 'A' as int + (c as int - 'a' as int) && LowerChar(c) == c
    ensures 'A' <= c <= 'Z' ==> LowerChar(c) as int == 'a' as int + (c as int - 'A' as int) && UpperChar(c) == c
    ensures !('a' <= c <= 'z') && !('A' <= c <= 'Z') ==> UpperChar(c) == c == LowerChar(c)
  {
  }

  /** The text between separators. */
  function SplitOn(s: string, separator: char): (pieces: seq<string>)
    ensures pieces != []
  {
    if s == "" then [""]
    else
      var rest := SplitOn(s[1..], separator);
      if s[0] == separator then [""] + rest else [[s[0]] + rest[0]] + rest[1..]
  }

  function JoinWith(pieces: seq<string>, separator: char): string {
    if pieces == [] then ""
    else if |pieces| == 1 then pieces[0]
    else pieces[0] + [separator] + JoinWith(pieces[1..], separator)
  }

  /** Nothing is lost in splitting. */
  lemma {:induction false} SplitThenJoin(s: string, separator: char)
    ensures JoinWith(SplitOn(s, separator), separator) == s
  {
    if s == "" {
    } else {
      SplitThenJoin(s[1..], separator);
      var rest, pieces := SplitOn(s[1..], separator), SplitOn(s, separator);
      if s[0] == separator {
        assert pieces[1..] == rest;
        assert [""][0] + [separator] + s[1..] == s;
      } else if |rest| == 1 {
        assert pieces[0] == s;
      } else {
        assert pieces[1..] == rest[1..];
        assert [s[0]] + s[1..] == s;
        assert [s[0]] + rest[0] + [separator] + JoinWith(rest[1..], separator) ==
               [s[0]] + (rest[0] + [separator] + JoinWith(rest[1..], separator));
      }
    }
  }

  lemma {:induction false} PiecesHaveNone(s: string, separator: char)
    ensures forall piece :: piece in SplitOn(s, separator) ==> separator !in piece
  {
    if s == "" {
    } else {
      PiecesHaveNone(s[1..], separator);
      var rest, pieces := SplitOn(s[1..], separator), SplitOn(s, separator);
      forall piece | piece in pieces ensures separator !in piece {
        assert piece == pieces[0] || piece in rest;
        assert rest[0] in rest;
      }
    }
  }

  lemma {:induction false} SplitWhole(s: string, separator: char)
    requires separator !in s
    ensures SplitOn(s, separator) == [s]
  {
    if s == "" {
    } else {
      SplitWhole(s[1..], separator);
      assert s[0] in s && forall c :: c in s[1..] ==> c in s;
      assert [s[0]] + s[1..] == s;
    }
  }

  lemma {:induction false} SplitAround(a: string, separator: char, b: string)
    ensures SplitOn(a + [separator] + b, separator) == SplitOn(a, separator) + SplitOn(b, separator)
  {
    var s := a + [separator] + b;
    if a == "" {
      assert s[1..] == b;
    } else {
      assert s[1..] == a[1..] + [separator] + b;
      SplitAround(a[1..], separator, b);
    }
  }

  /** Splitting recovers what was joined. */
  lemma {:induction false} JoinThenSplit(pieces: seq<string>, separator: char)
    requires pieces != [] && forall piece :: piece in pieces ==> separator !in piece
    ensures SplitOn(JoinWith(pieces, separator), separator) == pieces
  {
    SplitWhole(pieces[0], separator);
    if |pieces| == 1 {
    } else {
      assert forall piece :: piece in pieces[1..] ==> piece in pieces;
      JoinThenSplit(pieces[1..], separator);
      SplitAround(pieces[0], separator, JoinWith(pieces[1..], separator));
      assert pieces == [pieces[0]] + pieces[1..];
    }
  }

  /** Stripping takes white space off both ends, and nothing else. */
  lemma StripTrims(s: string)
    ensures exists left: string, right: string ::
      && s == left + Strip(s) + right && Blank(left) && Blank(right)
      && (Strip(s) != "" ==> !Space(Strip(s)[0]) && !Space(Strip(s)[|Strip(s)| - 1]))
  {
    var left, middle := TrimsLeft(s);
    var right := TrimsRight(middle);
    assert s == left + Strip(s) + right;
    if Strip(s) != "" {
      assert Strip(s)[0] == middle[0];
    }
  }

  predicate Blank(s: string) {
    forall i :: 0 <= i < |s| ==> Space(s[i])
  }

  lemma {:induction false} TrimsLeft(s: string) returns (left: string, rest: string)
    ensures rest == TrimLeft(s) && s == left + rest && Blank(left) && (rest != "" ==> !Space(rest[0]))
  {
    if s == "" || !Space(s[0]) {
      left, rest := "", s;
    } else {
      left, rest := TrimsLeft(s[1..]);
      left := [s[0]] + left;
    }
  }

  lemma {:induction false} TrimsRight(s: string) returns (right: string)
    ensures s == TrimRight(s) + right && Blank(right)
    ensures TrimRight(s) != "" ==> !Space(TrimRight(s)[|TrimRight(s)| - 1])
    decreases |s|
  {
    if s == "" || !Space(s[|s| - 1]) {
      right := "";
    } else {
      right := TrimsRight(s[..|s| - 1]);
      right := right + [s[|s| - 1]];
    }
  }
}
