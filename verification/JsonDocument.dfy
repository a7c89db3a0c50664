/**
 JSON documents, JSON Pointer (RFC 6901, sections 3 and 4) and the three operations of JSON Patch
 that the library emits: add, remove and replace (RFC 6902, sections 4.1 to 4.3).
 */
module JsonDocument {
  import opened Options
  import Text

  datatype Json =
    | Null
    | Bool(b: bool)
    | Number(n: real)
    | Str(s: string)
    | Array(items: seq<Json>)
    | Object(members: map<string, Json>)

  // ---------- JSON Pointer ----------

  function SplitAtSlashes(s: string): (r: seq<string>)
    ensures |r| >= 1
  {
    if s == "" then [""]
    else
      var rest := SplitAtSlashes(s[1..]);
      if s[0] == '/' then [""] + rest else [[s[0]] + rest[0]] + rest[1..]
  }

  /** Section 4 of RFC 6901: "~1" stands for '/' and "~0" for '~'. */
  function Unescape(token: string): string {
    if |token| >= 2 && token[0] == '~' && token[1] == '1' then "/" + Unescape(token[2..])
    else if |token| >= 2 && token[0] == '~' && token[1] == '0' then "~" + Unescape(token[2..])
    else if token == "" then ""
    else [token[0]] + Unescape(token[1..])
  }

  function UnescapeAll(tokens: seq<string>): (r: seq<string>)
    ensures |r| == |tokens|
  {
    if tokens == [] then [] else [Unescape(tokens[0])] + UnescapeAll(tokens[1..])
  }

  function ParsePointer(p: string): Option<seq<string>> {
    if p == "" then Some([])
    else if p[0] != '/' then None
    else Some(UnescapeAll(SplitAtSlashes(p[1..])))
  }

  /** A reference token that can be written into a pointer as it stands. */
  predicate Plain(token: string) {
    forall i :: 0 <= i < |token| ==> token[i] != '/' && token[i] != '~'
  }

  lemma {:induction false} SplitPlain(token: string)
    requires Plain(token)
    ensures SplitAtSlashes(token) == [token]
  {
    if token != "" {
      SplitPlain(token[1..]);
      assert [token[0]] + token[1..] == token;
    }
  }

  lemma {:induction false} UnescapePlain(token: string)
    requires Plain(token)
    ensures Unescape(token) == token
  {
    if token != "" {
      UnescapePlain(token[1..]);
      assert [token[0]] + token[1..] == token;
    }
  }

  lemma SplitFirst(s: string)
    requires s != ""
    ensures var r := SplitAtSlashes(s[1..]);
      SplitAtSlashes(s) == if s[0] == '/' then [""] + r else [[s[0]] + r[0]] + r[1..]
  {
  }

  lemma PutFirst(c: char, r: seq<string>, t: seq<string>)
    requires r != []
    ensures [""] + (r + t) == ([""] + r) + t
    ensures [[c] + (r + t)[0]] + (r + t)[1..] == ([[c] + r[0]] + r[1..]) + t
  {
    assert (r + t)[1..] == r[1..] + t;
  }

  lemma {:induction false} SplitAppend(x: string, y: string)
    ensures SplitAtSlashes(x + "/" + y) == SplitAtSlashes(x) + SplitAtSlashes(y)
  {
    var s := x + "/" + y;
    SplitFirst(s);
    if x == "" {
      assert s == "/" + y && s[1..] == y;
    } else {
      assert s[0] == x[0] && s[1..] == x[1..] + "/" + y;
      SplitFirst(x);
      SplitAppend(x[1..], y);
      PutFirst(x[0], SplitAtSlashes(x[1..]), SplitAtSlashes(y));
    }
  }

  lemma {:induction false} UnescapeAllAppend(x: seq<string>, y: seq<string>)
    ensures UnescapeAll(x + y) == UnescapeAll(x) + UnescapeAll(y)
  {
    if x == [] {
      assert x + y == y;
    } else {
      assert (x + y)[1..] == x[1..] + y;
      UnescapeAllAppend(x[1..], y);
    }
  }

  /** Writing one pointer after another addresses relative to the place the first one points to. */
  lemma PointerAppend(p: string, q: string)
    requires p != "" && p[0] == '/' && q != "" && q[0] == '/'
    ensures ParsePointer(p + q).Some?
    ensures ParsePointer(p + q).value == ParsePointer(p).value + ParsePointer(q).value
  {
    assert q == "/" + q[1..];
    assert (p + q)[1..] == p[1..] + "/" + q[1..];
    SplitAppend(p[1..], q[1..]);
    UnescapeAllAppend(SplitAtSlashes(p[1..]), SplitAtSlashes(q[1..]));
  }

  lemma PointerToMember(key: string)
    requires Plain(key)
    ensures ParsePointer("/" + key) == Some([key])
  {
    var p := "/" + key;
    assert p[0] == '/' && p[1..] == key;
    SplitPlain(key);
    UnescapePlain(key);
    var tokens := [key];
    assert tokens[1..] == [];
    assert UnescapeAll(tokens) == [Unescape(key)];
  }

  // ---------- Array positions ----------

  /** Section 4 of RFC 6901: digits without a leading zero. */
  function ParseIndex(token: string): Option<nat> {
    if token == "" || !(forall i :: 0 <= i < |token| ==> '0' <= token[i] <= '9') then None
    else if |token| > 1 && token[0] == '0' then None
    else Some(Text.NumeralValue(token, 10))
  }

  lemma PrintedIndex(i: nat)
    ensures Plain(Text.Decimal(i)) && Text.Decimal(i) != "" && Text.Decimal(i) != "-"
    ensures ParseIndex(Text.Decimal(i)) == Some(i)
  {
    Text.NumeralReadsBack(i, 10, 0);
    Text.NoLeadingZero(i, 10);
    var t := Text.Decimal(i);
    forall k | 0 <= k < |t|
      ensures '0' <= t[k] <= '9'
    {
      assert Text.DigitValue(t[k]) < 10;
    }
    assert Text.DigitValue('-') == 16;
    if i == 0 {
      assert t == ['0'];
    }
  }

  // ---------- Operations ----------

  datatype Action = AddValue(v: Json) | RemoveTarget | ReplaceValue(v: Json)

  /** The action applied to a location of a container: a member of an object or a position of an array. */
  function ActOn(container: Json, token: string, act: Action): Option<Json> {
    match container
    case Object(m) =>
      (match act
       case AddValue(v) => Some(Object(m[token := v]))
       case RemoveTarget => if token in m then Some(Object(m - {token})) else None
       case ReplaceValue(v) => if token in m then Some(Object(m[token := v])) else None)
    case Array(xs) =>
      (match act
       case AddValue(v) =>
         if token == "-" then Some(Array(xs + [v]))
         else
           var i :- ParseIndex(token);
           if i <= |xs| then Some(Array(xs[..i] + [v] + xs[i..])) else None
       case RemoveTarget =>
         var i :- ParseIndex(token);
         if i < |xs| then Some(Array(xs[..i] + xs[i + 1..])) else None
       case ReplaceValue(v) =>
         var i :- ParseIndex(token);
         if i < |xs| then Some(Array(xs[i := v])) else None)
    case _ => None
  }

  function Child(container: Json, token: string): Option<Json> {
    match container
    case Object(m) => if token in m then Some(m[token]) else None
    case Array(xs) =>
      var i :- ParseIndex(token);
      if i < |xs| then Some(xs[i]) else None
    case _ => None
  }

  function WithChild(container: Json, token: string, child: Json): Json
    requires Child(container, token).Some?
  {
    match container
    case Object(m) => Object(m[token := child])
    case Array(xs) => Array(xs[ParseIndex(token).value := child])
    case _ => container
  }

  /** The action applied at the end of a path of reference tokens. Removing the whole document is an error. */
  function ActAt(doc: Json, path: seq<string>, act: Action): Option<Json>
    decreases |path|
  {
    if path == [] then
      (match act
       case AddValue(v) => Some(v)
       case RemoveTarget => None
       case ReplaceValue(v) => Some(v))
    else if |path| == 1 then ActOn(doc, path[0], act)
    else
      var child :- Child(doc, path[0]);
      var child' :- ActAt(child, path[1..], act);
      Some(WithChild(doc, path[0], child'))
  }
}
