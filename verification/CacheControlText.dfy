/**
 The text of a Cache-Control header: which pieces between its commas rule out caching, which set an age, and what
 the header as a whole says (section 5.2.2 of RFC 9111).
 */
module CacheControlText {
  import opened Options
  import opened CacheControl
  import Text

  predicate AllSpace(s: string) {
    forall i :: 0 <= i < |s| ==> IsSpace(s[i])
  }

  /** The word with nothing but white space around it. */
  predicate Padded(piece: string, from: nat, to: nat)
    requires from <= to <= |piece|
  {
    AllSpace(piece[..from]) && AllSpace(piece[to..])
  }

  predicate IsNoCaching(word: string) {
    SameText(word, "no-cache") || SameText(word, "no-store")
  }

  /** The piece is "no-cache" or "no-store", in any case, with white space around it. */
  predicate RulesOut(piece: string) {
    exists a, b :: 0 <= a <= b <= |piece| && Padded(piece, a, b) && IsNoCaching(piece[a..b])
  }

  /** The piece begins with "max-age=", in any case, after white space. */
  predicate NamesAge(piece: string) {
    exists a :: 0 <= a <= |piece| - 8 && AllSpace(piece[..a]) && SameText(piece[a..a + 8], "max-age=")
  }

  /** What follows are the decimal digits of n, and white space. */
  predicate SetsAge(piece: string, n: nat) {
    exists a, b :: 0 <= a && a + 8 < b <= |piece| && Padded(piece, a, b) && SameText(piece[a..a + 8], "max-age=")
                   && Text.IsDigits(piece[a + 8..b], 10) && Text.NumeralValue(piece[a + 8..b], 10) == n
  }

  // ---------- Words ----------

  predicate NoSpaceAtEnds(s: string) {
    s != "" ==> !IsSpace(s[0]) && !IsSpace(s[|s| - 1])
  }

  lemma {:induction false} TrimLeftIs(piece: string, a: nat)
    requires a <= |piece| && AllSpace(piece[..a]) && (a < |piece| ==> !IsSpace(piece[a]))
    ensures TrimLeft(piece) == piece[a..]
  {
    if a > 0 {
      assert IsSpace(piece[..a][0]);
      assert piece[1..][..a - 1] == piece[..a][1..];
      TrimLeftIs(piece[1..], a - 1);
    }
  }

  lemma {:induction false} TrimRightIs(s: string, b: nat)
    requires b <= |s| && AllSpace(s[b..]) && (b > 0 ==> !IsSpace(s[b - 1]))
    ensures TrimRight(s) == s[..b]
  {
    if b < |s| {
      assert s[b..][|s| - 1 - b] == s[|s| - 1];
      var t := s[..|s| - 1];
      assert t[b..] == s[b..][..|s| - 1 - b] && t[..b] == s[..b];
      TrimRightIs(t, b);
    } else {
      assert s[..b] == s;
    }
  }

  /** Where the trimmed text of a piece is. */
  lemma TrimIs(piece: string, a: nat, b: nat)
    requires a <= b <= |piece| && Padded(piece, a, b) && a < b && NoSpaceAtEnds(piece[a..b])
    ensures Trim(piece) == piece[a..b]
  {
    TrimLeftIs(piece, a);
    var s := piece[a..];
    assert s[b - a..] == piece[b..] && s[..b - a] == piece[a..b];
    TrimRightIs(s, b - a);
  }

  lemma {:induction false} TrimLeftAt(piece: string) returns (a: nat)
    ensures a <= |piece| && AllSpace(piece[..a]) && TrimLeft(piece) == piece[a..] && (a < |piece| ==> !IsSpace(piece[a]))
  {
    if piece != "" && IsSpace(piece[0]) {
      var n := TrimLeftAt(piece[1..]);
      a := n + 1;
      assert piece[..a] == [piece[0]] + piece[1..][..n];
    } else {
      a := 0;
    }
  }

  lemma {:induction false} TrimRightAt(s: string) returns (b: nat)
    ensures b <= |s| && AllSpace(s[b..]) && TrimRight(s) == s[..b] && (b > 0 ==> !IsSpace(s[b - 1]))
  {
    if s != "" && IsSpace(s[|s| - 1]) {
      var t := s[..|s| - 1];
      b := TrimRightAt(t);
      assert s[b..] == t[b..] + [s[|s| - 1]] && t[..b] == s[..b];
    } else {
      b := |s|;
      assert s[..b] == s;
    }
  }

  lemma TrimmedAt(piece: string) returns (a: nat, b: nat)
    ensures a <= b <= |piece| && Padded(piece, a, b) && Trim(piece) == piece[a..b] && NoSpaceAtEnds(piece[a..b])
  {
    a := TrimLeftAt(piece);
    var s := piece[a..];
    var n := TrimRightAt(s);
    b := a + n;
    assert s[n..] == piece[b..] && s[..n] == piece[a..b];
  }

  lemma WordEnds(word: string, name: string)
    requires SameText(word, name) && NoSpaceAtEnds(name)
    ensures NoSpaceAtEnds(word)
  {
    if word != "" {
      assert Lower(word[0]) == Lower(name[0]) && Lower(word[|word| - 1]) == Lower(name[|name| - 1]);
    }
  }

  lemma NamesClean()
    ensures NoSpaceAtEnds("no-cache") && NoSpaceAtEnds("no-store") && |"no-cache"| == 8 && |"no-store"| == 8
    ensures |"max-age="| == 8 && !IsSpace("max-age="[0]) && !IsSpace("max-age="[7])
    ensures Lower("max-age="[0]) != Lower("no-cache"[0]) && Lower("max-age="[0]) != Lower("no-store"[0])
  {
  }

  lemma PieceRulesOut(piece: string)
    ensures DirectiveOf(piece).NoCaching? <==> RulesOut(piece)
  {
    NamesClean();
    if RulesOut(piece) {
      var a: nat, b: nat :| a <= b <= |piece| && Padded(piece, a, b) && IsNoCaching(piece[a..b]);
      WordEnds(piece[a..b], if SameText(piece[a..b], "no-cache") then "no-cache" else "no-store");
      TrimIs(piece, a, b);
    }
    if DirectiveOf(piece).NoCaching? {
      var a, b := TrimmedAt(piece);
      assert IsNoCaching(piece[a..b]);
    }
  }

  lemma NameStarts(piece: string, a: nat)
    requires a + 8 <= |piece| && SameText(piece[a..a + 8], "max-age=")
    ensures !IsSpace(piece[a]) && !IsSpace(piece[a + 7])
  {
    NamesClean();
    var word := piece[a..a + 8];
    assert Lower(word[0]) == Lower("max-age="[0]) && Lower(word[7]) == Lower("max-age="[7]);
    assert piece[a] == word[0] && piece[a + 7] == word[7];
  }

  lemma SpacesAt(s: string, n: nat)
    requires n <= |s| && AllSpace(s[n..])
    ensures forall k :: n <= k < |s| ==> IsSpace(s[k])
  {
    forall k | n <= k < |s|
      ensures IsSpace(s[k])
    {
      assert s[n..][k - n] == s[k];
    }
  }

  /** The trimmed text of a piece that names an age starts where the name does. */
  lemma NamedText(piece: string, a: nat) returns (b: nat)
    requires a + 8 <= |piece| && AllSpace(piece[..a]) && SameText(piece[a..a + 8], "max-age=")
    ensures a + 8 <= b <= |piece| && AllSpace(piece[b..]) && Trim(piece) == piece[a..b] && !IsSpace(piece[b - 1])
  {
    NameStarts(piece, a);
    TrimLeftIs(piece, a);
    var s := piece[a..];
    var n := TrimRightAt(s);
    SpacesAt(s, n);
    assert s[7] == piece[a + 7];
    b := a + n;
    assert s[n..] == piece[b..] && s[..n] == piece[a..b];
  }

  lemma PieceNamesAge(piece: string)
    ensures NamesAge(piece) <==> DirectiveOf(piece).MaxAge?
  {
    NamesClean();
    if NamesAge(piece) {
      var a: nat :| a <= |piece| - 8 && AllSpace(piece[..a]) && SameText(piece[a..a + 8], "max-age=");
      var b := NamedText(piece, a);
      NamedDirective(piece, a, b);
    }
    if DirectiveOf(piece).MaxAge? {
      var a, b := TrimmedAt(piece);
      assert piece[a..b][..8] == piece[a..a + 8];
    }
  }

  lemma NamedDirective(piece: string, a: nat, b: nat)
    requires a + 8 <= b <= |piece| && SameText(piece[a..a + 8], "max-age=") && Trim(piece) == piece[a..b]
    ensures DirectiveOf(piece) == MaxAge(Number(piece[a + 8..b]))
  {
    NamesClean();
    var op := Trim(piece);
    assert op[..8] == piece[a..a + 8] && op[8..] == piece[a + 8..b];
    assert Lower(op[0]) == Lower(op[..8][0]) == Lower("max-age="[0]);
  }

  lemma {:induction false} DigitsAll(s: string)
    requires Text.IsDigits(s, 10)
    ensures Digits(s) == |s|
  {
    if s != "" {
      DigitsAll(s[1..]);
    }
  }

  lemma {:induction false} DigitsEnd(s: string, rest: string)
    requires Text.IsDigits(s, 10) && (rest != "" ==> !IsDigit(rest[0]))
    ensures Digits(s + rest) == |s|
  {
    if s == "" {
      assert s + rest == rest;
    } else {
      assert (s + rest)[1..] == s[1..] + rest;
      DigitsEnd(s[1..], rest);
    }
  }

  /** White space, a sign or none, the decimal digits of n, and anything but a digit: read as n, or as its negative. */
  lemma NumberReads(space: string, sign: string, n: nat, width: nat, rest: string)
    requires AllSpace(space) && (sign == "" || sign == "+" || sign == "-") && (rest != "" ==> !IsDigit(rest[0]))
    ensures Number(space + (sign + (Text.Numeral(n, 10, width) + rest))) == if sign == "-" then -(n as int) else n as int
  {
    var digits := Text.Numeral(n, 10, width);
    Text.NumeralReadsBack(n, 10, width);
    DigitsEnd(digits, rest);
    var t := sign + (digits + rest);
    assert Text.DigitValue(digits[0]) < 10 && t[0] == if sign == "" then digits[0] else sign[0];
    assert (space + t)[..|space|] == space && (space + t)[|space|..] == t;
    TrimLeftIs(space + t, |space|);
    assert (digits + rest)[..|digits|] == digits;
    if sign == "" {
      assert t == digits + rest;
    } else {
      assert t[1..] == digits + rest;
    }
  }

  lemma NumberOfDigits(s: string)
    requires s != "" && Text.IsDigits(s, 10)
    ensures Number(s) == Text.NumeralValue(s, 10)
  {
    DigitsAll(s);
    assert IsDigit(s[0]) && TrimLeft(s) == s && s[..|s|] == s;
  }

  lemma PieceSetsAge(piece: string, n: nat)
    requires SetsAge(piece, n)
    ensures DirectiveOf(piece) == MaxAge(n)
  {
    var a: nat, b: nat :| a + 8 < b <= |piece| && Padded(piece, a, b) && SameText(piece[a..a + 8], "max-age=")
                          && Text.IsDigits(piece[a + 8..b], 10) && Text.NumeralValue(piece[a + 8..b], 10) == n;
    NameStarts(piece, a);
    assert Text.DigitValue(piece[a + 8..b][b - a - 9]) < 10;
    assert piece[a..b][0] == piece[a] && piece[a..b][b - a - 1] == piece[b - 1];
    TrimIs(piece, a, b);
    NamedDirective(piece, a, b);
    NumberOfDigits(piece[a + 8..b]);
  }

  // ---------- Pieces of a header ----------

  /** The text from i to j is a piece: it has no comma, and it ends at commas or at the ends of the header. */
  predicate Piece(header: string, i: int, j: int) {
    && 0 <= i <= j <= |header| && (forall k :: i <= k < j ==> header[k] != ',')
    && (i == 0 || header[i - 1] == ',') && (j == |header| || header[j] == ',')
  }

  predicate RulesOutAt(header: string, i: int, j: int) {
    Piece(header, i, j) && RulesOut(header[i..j])
  }

  predicate NamesAgeAt(header: string, i: int, j: int) {
    Piece(header, i, j) && NamesAge(header[i..j])
  }

  predicate SetsAgeAt(header: string, i: int, j: int, n: nat) {
    Piece(header, i, j) && SetsAge(header[i..j], n)
  }

  /** What is left of a header behind its first comma. */
  function Rest(header: string): string {
    if Comma(header) == |header| then "" else header[Comma(header) + 1..]
  }

  lemma FirstPiece(header: string)
    ensures Piece(header, 0, Comma(header)) && header[0..Comma(header)] == header[..Comma(header)]
  {
  }

  lemma PieceIs(header: string, i: int, j: int)
    requires Piece(header, i, j)
    ensures if i == 0 then j == Comma(header) else Comma(header) < i
  {
  }

  lemma SuffixText(header: string, n: nat, i: nat, j: nat)
    requires 0 < n <= |header| && header[n - 1] == ',' && i <= j <= |header| - n
    ensures Piece(header[n..], i, j) <==> Piece(header, i + n, j + n)
    ensures header[n..][i..j] == header[i + n..j + n]
  {
    var rest := header[n..];
    assert rest[i..j] == header[i + n..j + n];
    assert forall k :: i <= k < j ==> rest[k] == header[k + n];
    assert forall k :: i + n <= k < j + n ==> header[k] == rest[k - n];
    assert i > 0 ==> header[n..][i - 1] == header[i + n - 1];
    assert j < |header| - n ==> header[n..][j] == header[j + n];
  }

  /** What pieces say behind a comma is what they say in the header. */
  lemma SuffixPiece(header: string, n: nat, rest: string, i: int, j: int)
    requires 0 < n <= |header| && header[n - 1] == ',' && 0 <= i && rest == header[n..]
    ensures Piece(rest, i, j) <==> Piece(header, i + n, j + n)
    ensures Piece(rest, i, j) ==> rest[i..j] == header[i + n..j + n]
  {
    if i <= j <= |header| - n {
      SuffixText(header, n, i, j);
    }
  }

  lemma SuffixSays(header: string, n: nat, rest: string, i: int, j: int)
    requires 0 < n <= |header| && header[n - 1] == ',' && 0 <= i && rest == header[n..]
    ensures RulesOutAt(rest, i, j) <==> RulesOutAt(header, i + n, j + n)
    ensures NamesAgeAt(rest, i, j) <==> NamesAgeAt(header, i + n, j + n)
  {
    SuffixPiece(header, n, rest, i, j);
  }

  lemma DirectivesAppend(x: seq<string>, y: seq<string>)
    ensures DirectivesOf(x + y) == DirectivesOf(x) + DirectivesOf(y)
  {
  }

  /** The directives of a header: the one of its first piece, unless that is empty, and those of the rest. */
  lemma DirectivesFirst(header: string)
    ensures var n := Comma(header);
      Directives(header) == (if n == 0 then [] else [DirectiveOf(header[..n])]) + Directives(Rest(header))
  {
    var n := Comma(header);
    var first: seq<string> := if n == 0 then [] else [header[..n]];
    assert Tokens(header) == first + Tokens(Rest(header));
    DirectivesAppend(first, Tokens(Rest(header)));
    assert DirectivesOf(first) == if n == 0 then [] else [DirectiveOf(header[..n])];
  }

  ghost predicate RulesOutSomewhere(header: string) {
    exists i, j :: RulesOutAt(header, i, j)
  }

  lemma FirstRulesOut(header: string, n: nat)
    requires n == Comma(header)
    ensures RulesOutAt(header, 0, n) <==> RulesOut(header[..n])
  {
    FirstPiece(header);
  }

  lemma RestRulesOut(header: string, n: nat, rest: string)
    requires n < |header| && header[n] == ',' && rest == header[n + 1..] && RulesOutSomewhere(rest)
    ensures RulesOutSomewhere(header)
  {
    var i, j :| RulesOutAt(rest, i, j);
    RulingMoves(header, n + 1, rest, i, j);
  }

  lemma RulingMoves(header: string, n: nat, rest: string, i: int, j: int)
    requires 0 < n <= |header| && header[n - 1] == ',' && rest == header[n..] && RulesOutAt(rest, i, j)
    ensures RulesOutAt(header, i + n, j + n)
  {
    SuffixPiece(header, n, rest, i, j);
  }

  lemma LaterRulesOut(header: string, n: nat, rest: string, i: int, j: int)
    requires n < |header| && header[n] == ',' && rest == header[n + 1..] && RulesOutAt(header, i, j) && n < i
    ensures RulesOutSomewhere(rest)
  {
    SuffixSays(header, n + 1, rest, i - n - 1, j - n - 1);
    assert RulesOutAt(rest, i - n - 1, j - n - 1);
  }

  lemma SuffixRulesOut(header: string, n: nat, rest: string)
    requires n == Comma(header) && n < |header| && rest == header[n + 1..]
    ensures RulesOutSomewhere(header) <==> RulesOutAt(header, 0, n) || RulesOutSomewhere(rest)
  {
    if RulesOutSomewhere(rest) {
      RestRulesOut(header, n, rest);
    }
    if i, j :| RulesOutAt(header, i, j) {
      PieceIs(header, i, j);
      if i > 0 {
        LaterRulesOut(header, n, rest, i, j);
      }
    }
  }

  lemma OnlyPieceRulesOut(header: string)
    requires Comma(header) == |header|
    ensures RulesOutSomewhere(header) <==> RulesOut(header)
  {
    FirstPiece(header);
    assert header[..|header|] == header;
    if RulesOut(header) {
      assert RulesOutAt(header, 0, |header|);
    }
    if i, j :| RulesOutAt(header, i, j) {
      PieceIs(header, i, j);
    }
  }

  lemma {:induction false} HeaderRulesOut(header: string)
    ensures NoCaching in Directives(header) <==> RulesOutSomewhere(header)
    decreases |header|
  {
    var n := Comma(header);
    DirectivesFirst(header);
    PieceRulesOut(header[..n]);
    FirstRulesOut(header, n);
    if n < |header| {
      HeaderRulesOut(Rest(header));
      SuffixRulesOut(header, n, Rest(header));
    } else {
      OnlyPieceRulesOut(header);
      assert header[..n] == header;
    }
  }

  /** No piece from position k on names an age. */
  ghost predicate NoAgeFrom(header: string, k: int) {
    forall i, j :: NamesAgeAt(header, i, j) ==> i < k
  }

  lemma NoAgeLater(header: string, k: int)
    requires Comma(header) < |header| && NoAgeFrom(header, k)
    ensures NoAgeFrom(Rest(header), k - Comma(header) - 1)
  {
    var n, rest := Comma(header) + 1, Rest(header);
    forall i, j | NamesAgeAt(rest, i, j)
      ensures i < k - n
    {
      SuffixSays(header, n, rest, i, j);
    }
  }

  lemma {:induction false} NoAge(header: string, k: int, default: int)
    requires NoAgeFrom(header, k) && k <= 0
    ensures AgeIn(header, default) == default
    decreases |header|
  {
    var n := Comma(header);
    DirectivesFirst(header);
    FirstPiece(header);
    PieceNamesAge(header[..n]);
    assert !NamesAgeAt(header, 0, n);
    if n < |header| {
      NoAgeLater(header, k);
      NoAge(Rest(header), k - n - 1, default);
    }
    AfterFirst(header, default);
  }

  /** The last maximum age of a header. */
  function AgeIn(header: string, default: int): int {
    LastMaxAge(Directives(header), default)
  }

  function AgeOfFirst(header: string, default: int): int {
    var d := DirectiveOf(header[..Comma(header)]);
    if d.MaxAge? then d.seconds else default
  }

  /** The first piece sets the age with which the rest begins. */
  lemma AfterFirst(header: string, default: int)
    ensures AgeIn(header, default) == AgeIn(Rest(header), AgeOfFirst(header, default))
  {
    var n := Comma(header);
    DirectivesFirst(header);
    if n > 0 {
      LastMaxAgeFirst(DirectiveOf(header[..n]), Directives(Rest(header)), default);
    } else {
      assert [] + Directives(Rest(header)) == Directives(Rest(header));
    }
  }

  lemma FirstAge(header: string, default: int)
    requires DirectiveOf(header[..Comma(header)]).MaxAge? && NoAgeFrom(header, 1)
    ensures AgeIn(header, default) == DirectiveOf(header[..Comma(header)]).seconds
  {
    AfterFirst(header, default);
    if Comma(header) < |header| {
      NoAgeLater(header, 1);
      NoAge(Rest(header), 0 - Comma(header), DirectiveOf(header[..Comma(header)]).seconds);
    }
  }

  lemma CommaInFront(x: string, y: string)
    requires Comma(x) < |x|
    ensures Comma(x + y) == Comma(x)
  {
    var n := Comma(x);
    assert forall k :: 0 <= k <= n ==> (x + y)[k] == x[k];
    CommaIs(x + y, n);
  }

  lemma CommaBetween(x: string, y: string)
    requires Comma(x) == |x|
    ensures Comma(x + ("," + y)) == |x|
  {
    var s := x + ("," + y);
    assert forall k :: 0 <= k < |x| ==> s[k] == x[k];
    CommaIs(s, |x|);
  }

  lemma RestInFront(x: string, y: string)
    requires Comma(x) < |x|
    ensures FirstToken(x + ("," + y)) == FirstToken(x) && Rest(x + ("," + y)) == Rest(x) + ("," + y)
  {
    CommaInFront(x, "," + y);
    SlicesInFront(x, "," + y, Comma(x));
    SameFront(x, x + ("," + y), Comma(x), x[Comma(x) + 1..] + ("," + y));
  }

  lemma SameFront(x: string, s: string, n: nat, rest: string)
    requires n == Comma(x) == Comma(s) && n < |x| && n < |s| && s[..n] == x[..n] && s[n + 1..] == rest
    ensures FirstToken(s) == FirstToken(x) && Rest(s) == rest
  {
  }

  lemma SlicesInFront(x: string, y: string, n: nat)
    requires n < |x|
    ensures (x + y)[..n] == x[..n] && (x + y)[n + 1..] == x[n + 1..] + y
  {
  }

  lemma RestBetween(x: string, y: string)
    requires Comma(x) == |x|
    ensures FirstToken(x + ("," + y)) == FirstToken(x) && Rest(x + ("," + y)) == y && Rest(x) == ""
  {
    var s := x + ("," + y);
    CommaBetween(x, y);
    assert s[..|x|] == x[..|x|] && s[|x| + 1..] == y;
  }

  /** A comma separates the tokens before it from those behind it. */
  lemma {:induction false} TokensAppend(x: string, y: string)
    ensures Tokens(x + ("," + y)) == Tokens(x) + Tokens(y)
    decreases |x|
  {
    TokensFirst(x + ("," + y));
    if Comma(x) == |x| {
      RestBetween(x, y);
      TokensOfLast(x);
    } else {
      RestInFront(x, y);
      RestShorter(x);
      TokensAppend(Rest(x), y);
      TokensFirst(x);
      TokensRegroup(FirstToken(x), Tokens(Rest(x)), Tokens(y));
    }
  }

  lemma TokensOfLast(x: string)
    requires Comma(x) == |x|
    ensures Tokens(x) == FirstToken(x)
  {
    TokensFirst(x);
    assert Tokens("") == [];
  }

  lemma RestShorter(x: string)
    requires Comma(x) < |x|
    ensures |Rest(x)| < |x|
  {
  }

  /** The text before the first comma, unless it is empty. */
  function FirstToken(s: string): seq<string> {
    if Comma(s) == 0 then [] else [s[..Comma(s)]]
  }

  lemma TokensFirst(s: string)
    ensures Tokens(s) == FirstToken(s) + Tokens(Rest(s))
  {
  }

  lemma TokensRegroup(x: seq<string>, y: seq<string>, z: seq<string>)
    ensures x + (y + z) == (x + y) + z
  {
  }

  lemma {:induction false} AgeOfBoth(x: seq<Directive>, y: seq<Directive>, default: int)
    ensures LastMaxAge(x + y, default) == LastMaxAge(y, LastMaxAge(x, default))
  {
    if y == [] {
      assert x + y == x;
    } else {
      assert (x + y)[..|x + y| - 1] == x + y[..|y| - 1];
      AgeOfBoth(x, y[..|y| - 1], default);
    }
  }

  /** What stands before a comma only matters as the age with which the rest begins. */
  lemma AgeBehind(x: string, y: string, default: int)
    ensures AgeIn(x + ("," + y), default) == AgeIn(y, AgeIn(x, default))
  {
    TokensAppend(x, y);
    DirectivesAppend(Tokens(x), Tokens(y));
    AgeOfBoth(Directives(x), Directives(y), default);
  }

  /** The last piece that names an age decides. */
  lemma LastAge(header: string, i: int, j: int, piece: string, default: int)
    requires Piece(header, i, j) && piece == header[i..j] && DirectiveOf(piece).MaxAge? && NoAgeFrom(header, i + 1)
    ensures AgeIn(header, default) == DirectiveOf(piece).seconds
  {
    if i == 0 {
      FirstIs(header, j, piece);
      FirstAge(header, default);
    } else {
      var x, y := header[..i - 1], header[i..];
      assert header == x + ("," + y);
      AgeBehind(x, y, default);
      SuffixPiece(header, i, y, 0, j - i);
      FirstIs(y, j - i, piece);
      NoAgeBehind(header, i, y);
      FirstAge(y, AgeIn(x, default));
    }
  }

  lemma NoAgeBehind(header: string, n: nat, rest: string)
    requires 0 < n <= |header| && header[n - 1] == ',' && rest == header[n..] && NoAgeFrom(header, n + 1)
    ensures NoAgeFrom(rest, 1)
  {
    forall i, j | NamesAgeAt(rest, i, j)
      ensures i < 1
    {
      SuffixSays(header, n, rest, i, j);
    }
  }

  lemma FirstIs(header: string, j: int, piece: string)
    requires Piece(header, 0, j) && piece == header[0..j]
    ensures piece == header[..Comma(header)]
  {
    PieceIs(header, 0, j);
  }

  /** A piece "no-cache" or "no-store" anywhere makes the age 0, whatever else the header says. */
  lemma RuledOut(header: string, i: int, j: int)
    requires RulesOutAt(header, i, j)
    ensures AgeOf(header) == 0
  {
    HeaderRulesOut(header);
    assert RulesOutSomewhere(header);
  }

  /** Without such a piece, the last one that names an age sets it: "max-age=" and the digits of n make it n. */
  lemma LastAgeCounts(header: string, i: int, j: int, n: nat)
    requires !RulesOutSomewhere(header)
    requires SetsAgeAt(header, i, j, n) && NoAgeFrom(header, i + 1)
    ensures AgeOf(header) == n
  {
    HeaderRulesOut(header);
    PieceSetsAge(header[i..j], n);
    PieceNamesAge(header[i..j]);
    LastAge(header, i, j, header[i..j], 0);
  }

  /** A header that names no age has the age 0. */
  lemma NoAgeIsZero(header: string)
    requires NoAgeFrom(header, 0)
    ensures AgeOf(header) == 0
  {
    NoAge(header, 0, 0);
  }
}
