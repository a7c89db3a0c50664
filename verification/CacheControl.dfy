/** When a response expires: the Age, Cache-Control and Date headers (sections 5.1 and 5.2.2 of RFC 9111). */
module CacheControl {
  import opened Options
  import BindingCache
  import Text

  // ---------- C string functions ----------

  function Lower(c: char): char {
    if 'A' <= c <= 'Z' then (c as int + 32) as char else c
  }

  /** Comparison without regard to the case of ASCII letters. */
  predicate SameText(a: string, b: string) {
    |a| == |b| && forall i :: 0 <= i < |a| ==> Lower(a[i]) == Lower(b[i])
  }

  predicate IsSpace(c: char) {
    c == ' ' || '\t' <= c <= '\r'
  }

  function TrimLeft(s: string): string {
    if s != "" && IsSpace(s[0]) then TrimLeft(s[1..]) else s
  }

  function TrimRight(s: string): string {
    if s != "" && IsSpace(s[|s| - 1]) then TrimRight(s[..|s| - 1]) else s
  }

  function Trim(s: string): string {
    TrimRight(TrimLeft(s))
  }

  predicate IsDigit(c: char) {
    '0' <= c <= '9'
  }

  function Digits(s: string): (n: nat)
    ensures n <= |s| && forall i :: 0 <= i < n ==> IsDigit(s[i])
  {
    if s != "" && IsDigit(s[0]) then 1 + Digits(s[1..]) else 0
  }

  /** White space, an optional sign, and as many digits as there are. */
  function Number(s: string): int {
    var t := TrimLeft(s);
    if t != "" && t[0] == '-' then -(Text.NumeralValue(t[1..][..Digits(t[1..])], 10) as int)
    else
      var u := if t != "" && t[0] == '+' then t[1..] else t;
      Text.NumeralValue(u[..Digits(u)], 10)
  }

  /** Position of the next comma, or the length. */
  function Comma(s: string): (n: nat)
    ensures n <= |s| && (n < |s| ==> s[n] == ',') && forall i :: 0 <= i < n ==> s[i] != ','
  {
    if s == "" || s[0] == ',' then 0 else 1 + Comma(s[1..])
  }

  /** The pieces between commas; empty ones are skipped. */
  function Tokens(s: string): seq<string>
    decreases |s|
  {
    if s == "" then []
    else
      var n := Comma(s);
      (if n == 0 then [] else [s[..n]]) + (if n == |s| then [] else Tokens(s[n + 1..]))
  }

  lemma {:induction false} TokensClean(s: string, t: string)
    requires t in Tokens(s)
    ensures t != "" && ',' !in t
    decreases |s|
  {
    var n := Comma(s);
    if s[0] == ',' {
      CommaSkipped(s);
      TokensClean(s[1..], t);
    } else {
      TokenTaken(s, n);
      if t != s[..n] {
        TokensClean(s[n + 1..], t);
      }
    }
  }

  // ---------- The Cache-Control header ----------

  datatype Directive = NoCaching | MaxAge(seconds: int) | OtherDirective

  function DirectiveOf(token: string): Directive {
    var op := Trim(token);
    if SameText(op, "no-cache") || SameText(op, "no-store") then NoCaching
    else if |op| >= 8 && SameText(op[..8], "max-age=") then MaxAge(Number(op[8..]))
    else OtherDirective
  }

  function Directives(header: string): seq<Directive> {
    DirectivesOf(Tokens(header))
  }

  /** The last maximum age, or the one given. */
  function LastMaxAge(ds: seq<Directive>, default: int): int {
    if ds == [] then default
    else if ds[|ds| - 1].MaxAge? then ds[|ds| - 1].seconds
    else LastMaxAge(ds[..|ds| - 1], default)
  }

  /** 0 if caching is ruled out anywhere, else the last maximum age, else 0. */
  function AgeOf(header: string): int {
    if NoCaching in Directives(header) then 0 else LastMaxAge(Directives(header), 0)
  }

  /** The loop from a point on: it stops where caching is ruled out. */
  function Scan(tokens: seq<string>, age: int): int
    decreases |tokens|
  {
    if tokens == [] then age
    else
      match DirectiveOf(tokens[0])
      case NoCaching => 0
      case MaxAge(seconds) => Scan(tokens[1..], seconds)
      case OtherDirective => Scan(tokens[1..], age)
  }

  lemma {:induction false} LastMaxAgeFirst(d: Directive, ds: seq<Directive>, default: int)
    ensures LastMaxAge([d] + ds, default) == LastMaxAge(ds, if d.MaxAge? then d.seconds else default)
  {
    if ds == [] {
      assert [d] + ds == [d] && [d][..0] == [];
    } else {
      assert ([d] + ds)[..|ds|] == [d] + ds[..|ds| - 1];
      LastMaxAgeFirst(d, ds[..|ds| - 1], default);
    }
  }

  function DirectivesOf(tokens: seq<string>): (r: seq<Directive>)
    ensures |r| == |tokens|
  {
    seq(|tokens|, i requires 0 <= i < |tokens| => DirectiveOf(tokens[i]))
  }

  lemma {:induction false} ScanIs(tokens: seq<string>, age: int)
    ensures var ds := DirectivesOf(tokens); Scan(tokens, age) == if NoCaching in ds then 0 else LastMaxAge(ds, age)
    decreases |tokens|
  {
    if tokens != [] {
      var d, rest := DirectiveOf(tokens[0]), DirectivesOf(tokens[1..]);
      assert DirectivesOf(tokens) == [d] + rest;
      LastMaxAgeFirst(d, rest, age);
      ScanIs(tokens[1..], if d.MaxAge? then d.seconds else age);
    }
  }

  lemma CommaSkipped(s: string)
    requires s != "" && s[0] == ','
    ensures Tokens(s) == Tokens(s[1..])
  {
    assert Comma(s) == 0;
  }

  lemma TokenTaken(s: string, n: nat)
    requires s != "" && s[0] != ',' && n == Comma(s)
    ensures Tokens(s) == [s[..n]] + Tokens(if n == |s| then "" else s[n + 1..])
  {
    assert n > 0;
  }

  method SkipCommas(s: string) returns (rest: string)
    ensures Tokens(rest) == Tokens(s) && |rest| <= |s| && (rest != "" ==> rest[0] != ',')
  {
    rest := s;
    while rest != "" && rest[0] == ','
      invariant Tokens(rest) == Tokens(s) && |rest| <= |s|
      decreases |rest|
    {
      CommaSkipped(rest);
      rest := rest[1..];
    }
  }

  /** The first token, and what is left of the text after it. */
  method NextToken(s: string) returns (token: Option<string>, rest: string)
    ensures Tokens(s) == if token.Some? then [token.value] + Tokens(rest) else []
    ensures if token.Some? then |rest| < |s| else rest == ""
  {
    rest := SkipCommas(s);
    if rest == "" {
      return None, rest;
    }
    var n := FindComma(rest);
    TokenTaken(rest, n);
    token := Some(rest[..n]);
    rest := if n == |rest| then "" else rest[n + 1..];
  }

  method FindComma(s: string) returns (n: nat)
    ensures n == Comma(s)
  {
    n := 0;
    while n < |s| && s[n] != ','
      invariant n <= |s| && forall i :: 0 <= i < n ==> s[i] != ','
    {
      n := n + 1;
    }
    CommaIs(s, n);
  }

  lemma {:induction false} CommaIs(s: string, n: nat)
    requires n <= |s| && (n < |s| ==> s[n] == ',') && forall i :: 0 <= i < n ==> s[i] != ','
    ensures Comma(s) == n
  {
  }

  /** How long a response may be kept. */
  method CacheAge(header: string) returns (age: int)
    ensures age == AgeOf(header)
  {
    age := 0;
    ScanIs(Tokens(header), 0);
    var token, rest := NextToken(header);
    while token.Some?
      invariant Scan(if token.Some? then [token.value] + Tokens(rest) else [], age) == AgeOf(header)
      decreases |rest|, token.Some?
    {
      var op := Trim(token.value);
      assert ([token.value] + Tokens(rest))[1..] == Tokens(rest);
      if SameText(op, "no-cache") || SameText(op, "no-store") {
        return 0;
      } else if |op| >= 8 && SameText(op[..8], "max-age=") {
        age := Number(op[8..]);
      }
      token, rest := NextToken(rest);
    }
  }

  // ---------- The expiry time ----------

  datatype Header = Header(name: string, value: string)

  datatype Expiry = Expiry(base: int, maxAge: int, age: int)

  const DEFAULT_MAX_AGE := 5

  function Start(now: int): Expiry {
    Expiry(now, DEFAULT_MAX_AGE, 0)
  }

  function Seen(x: Expiry, h: Header, date: string -> int): Expiry {
    if SameText(h.name, "Age") then x.(age := Number(h.value))
    else if SameText(h.name, "Cache-Control") then x.(maxAge := AgeOf(h.value))
    else if SameText(h.name, "Date") then x.(base := date(h.value))
    else x
  }

  function SeenAll(x: Expiry, headers: seq<Header>, date: string -> int): Expiry {
    if headers == [] then x else Seen(SeenAll(x, headers[..|headers| - 1], date), headers[|headers| - 1], date)
  }

  function ExpiryTime(x: Expiry): int {
    x.base + (if x.maxAge - x.age < 0 then 0 else x.maxAge - x.age)
  }

  /** The headers are visited in the order in which the hash yields them. */
  method ResponseToExpiryTime(headers: seq<Header>, now: int, date: string -> int) returns (expires: int)
    ensures expires == ExpiryTime(SeenAll(Start(now), headers, date))
  {
    var base, maxAge, age := now, DEFAULT_MAX_AGE, 0;
    for i := 0 to |headers|
      invariant Expiry(base, maxAge, age) == SeenAll(Start(now), headers[..i], date)
    {
      assert headers[..i + 1][..i] == headers[..i];
      var h := headers[i];
      if SameText(h.name, "Age") {
        age := Number(h.value);
      } else if SameText(h.name, "Cache-Control") {
        maxAge := CacheAge(h.value);
      } else if SameText(h.name, "Date") {
        base := date(h.value);
      }
    }
    assert headers[..|headers|] == headers;
    maxAge := maxAge - age;
    if maxAge < 0 {
      maxAge := 0;
    }
    return base + maxAge;
  }

  /** Each header name occurs once, whatever its case. */
  predicate NamesOnce(headers: seq<Header>) {
    forall i, j :: 0 <= i < j < |headers| ==> !SameText(headers[i].name, headers[j].name)
  }

  /** The value of the header with the name, if there is one. */
  function Value(headers: seq<Header>, name: string): Option<string> {
    if headers == [] then None
    else
      var last := headers[|headers| - 1];
      if SameText(last.name, name) then Some(last.value) else Value(headers[..|headers| - 1], name)
  }

  lemma NamesDiffer(name: string)
    ensures SameText(name, "Age") ==> !SameText(name, "Cache-Control") && !SameText(name, "Date")
    ensures SameText(name, "Cache-Control") ==> !SameText(name, "Date")
  {
    assert |"Age"| == 3 && |"Cache-Control"| == 13 && |"Date"| == 4;
  }

  /** Each of the three times is decided by the last header of its name alone. */
  lemma {:induction false} SeenAllIs(now: int, headers: seq<Header>, date: string -> int)
    ensures SeenAll(Start(now), headers, date) ==
            Expiry(if Value(headers, "Date").Some? then date(Value(headers, "Date").value) else now,
                   if Value(headers, "Cache-Control").Some? then AgeOf(Value(headers, "Cache-Control").value) else 5,
                   if Value(headers, "Age").Some? then Number(Value(headers, "Age").value) else 0)
  {
    if headers != [] {
      SeenAllIs(now, headers[..|headers| - 1], date);
      NamesDiffer(headers[|headers| - 1].name);
    }
  }

  // ---------- Seconds and microseconds ----------

  /** Times are in microseconds, ages in seconds. */
  const SECOND := 1_000_000

  /** The time at which what remains of the maximum age has passed. */
  function DueTime(x: Expiry): int {
    x.base + SECOND * (if x.maxAge - x.age < 0 then 0 else x.maxAge - x.age)
  }

  /**
   The expiry time is the right one if and only if the age has used up the maximum age. Otherwise it is too early, and just
   the look-ups between the two times miss a binding that is still valid.
   */
  lemma ExpiresEarly(headers: seq<Header>, now: int, date: string -> int, s: BindingCache.Store, a: BindingCache.Address,
                     b: BindingCache.Binding, t: int)
    ensures var x := SeenAll(Start(now), headers, date);
      var maxAge := if Value(headers, "Cache-Control").Some? then AgeOf(Value(headers, "Cache-Control").value) else DEFAULT_MAX_AGE;
      var age := if Value(headers, "Age").Some? then Number(Value(headers, "Age").value) else 0;
      var early, due := BindingCache.AfterAdd(s, a, b, ExpiryTime(x)), BindingCache.AfterAdd(s, a, b, DueTime(x));
      && (ExpiryTime(x) == DueTime(x) <==> maxAge <= age)
      && (BindingCache.Found(early, a, t) != BindingCache.Found(due, a, t) <==> ExpiryTime(x) < t <= DueTime(x))
  {
    SeenAllIs(now, headers, date);
  }

  lemma {:induction false} ValueIs(headers: seq<Header>, h: Header, name: string)
    requires NamesOnce(headers) && h in headers && SameText(h.name, name)
    ensures Value(headers, name) == Some(h.value)
  {
    var init, last := headers[..|headers| - 1], headers[|headers| - 1];
    if last != h {
      var i :| 0 <= i < |headers| && headers[i] == h;
      assert init[i] == h;
      assert !SameText(headers[i].name, last.name);
      assert NamesOnce(init) by {
        assert forall k :: 0 <= k < |init| ==> init[k] == headers[k];
      }
      ValueIs(init, h, name);
    }
  }

  lemma {:induction false} NoValue(headers: seq<Header>, name: string)
    ensures Value(headers, name).None? <==> forall h :: h in headers ==> !SameText(h.name, name)
  {
    if headers != [] {
      var init, last := headers[..|headers| - 1], headers[|headers| - 1];
      assert headers == init + [last];
      NoValue(init, name);
    }
  }

  lemma SameValue(a: seq<Header>, b: seq<Header>, name: string)
    requires NamesOnce(a) && NamesOnce(b) && forall h :: h in a <==> h in b
    ensures Value(a, name) == Value(b, name)
  {
    NoValue(a, name);
    NoValue(b, name);
    if h :| h in a && SameText(h.name, name) {
      ValueIs(a, h, name);
      ValueIs(b, h, name);
    }
  }

  /** When each header name occurs once, the expiry time does not depend on the order in which the headers are visited. */
  lemma ExpiryOrderFree(a: seq<Header>, b: seq<Header>, now: int, date: string -> int)
    requires NamesOnce(a) && NamesOnce(b) && forall h :: h in a <==> h in b
    ensures ExpiryTime(SeenAll(Start(now), a, date)) == ExpiryTime(SeenAll(Start(now), b, date))
  {
    SeenAllIs(now, a, date);
    SeenAllIs(now, b, date);
    SameValue(a, b, "Age");
    SameValue(a, b, "Cache-Control");
    SameValue(a, b, "Date");
  }
}
