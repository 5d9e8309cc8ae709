/** The version-2 applications service: creating an LPA under a fresh random id, reading
    one, building the query that lists a user's LPAs (including the search box), and
    deleting one or all of them. A deleted LPA is not removed: it is stripped down to its
    id and `updatedAt`, so its id is never handed out again. LPAs are the documents of the
    `lpa` collection, keyed by their integer `_id`. */
module Applications {
  import opened Common
  import UM = UserManagement

  /** The range `create` draws new LPA ids from (11 digits at most). */
  const ID_MIN: int := 1000000
  const ID_MAX: int := 99999999999

  /** The keys of incoming data `create` and `patch` accept. */
  const ACCEPTED: set<string> := {"document", "metadata", "payment", "repeatCaseNumber"}

  /** `filterIncomingData`: exactly the accepted keys of the incoming data, values unchanged. */
  function FilterIncomingData(data: Doc): (r: Doc)
    ensures r.Keys == data.Keys * ACCEPTED
    ensures forall k :: k in r ==> r[k] == data[k]
  {
    map k | k in data && k in ACCEPTED :: data[k]
  }

  /** The first of the random draws that is not already an id, if any. */
  function FirstFree(draws: seq<int>, used: set<int>): (r: Option<int>)
    ensures r.Some? ==> r.value !in used
    ensures r.Some? ==> exists i :: 0 <= i < |draws| && draws[i] == r.value
    ensures r.None? <==> forall i :: 0 <= i < |draws| ==> draws[i] in used
  {
    if draws == [] then None
    else if draws[0] !in used then Some(draws[0])
    else
      var r := FirstFree(draws[1..], used);
      assert forall i :: 1 <= i < |draws| ==> draws[i] == draws[1..][i - 1];
      r
  }

  /** The LPA `create` starts from, before the client's data is applied. Of its fields,
      only the empty `document` is one that client data can replace. */
  function NewLpa(id: int, user: UserId, now: int): (r: Doc)
    ensures r.Keys * ACCEPTED == {"document"}
    ensures r["document"] == Assoc(map[])
  {
    map[
      "id" := Int(id),
      "startedAt" := DateTime(now),
      "updatedAt" := DateTime(now),
      "user" := Text(user),
      "locked" := Bool(false),
      "whoAreYouAnswered" := Bool(false),
      "document" := Assoc(map[])]
  }

  /** `populate` with the filtered data over the new LPA: the accepted keys of the data
      are added or replaced, every other field is the new LPA's. */
  function Populated(id: int, user: UserId, now: int, data: Doc): (r: Doc)
    ensures r.Keys == NewLpa(id, user, now).Keys + data.Keys * ACCEPTED
    ensures forall k :: k in data && k in ACCEPTED ==> r[k] == data[k]
    ensures forall k :: k in r && k !in ACCEPTED ==> r[k] == NewLpa(id, user, now)[k]
  {
    NewLpa(id, user, now) + FilterIncomingData(data)
  }

  /** Whatever the client sends, a created LPA belongs to the route user, is unlocked, has
      the who-are-you question unanswered, and carries the id and times it was given. */
  lemma CreatedLpaFixedFields(id: int, user: UserId, now: int, data: Doc)
    ensures var lpa := Populated(id, user, now, data);
      && lpa["user"] == Text(user)
      && lpa["locked"] == Bool(false)
      && lpa["whoAreYouAnswered"] == Bool(false)
      && lpa["id"] == Int(id)
      && lpa["startedAt"] == DateTime(now) && lpa["updatedAt"] == DateTime(now)
      && forall k :: k in data && k in ACCEPTED ==> lpa[k] == data[k]
  {
    var f := FilterIncomingData(data);
    assert "user" !in f && "locked" !in f && "whoAreYouAnswered" !in f;
    assert "id" !in f && "startedAt" !in f && "updatedAt" !in f;
  }

  /** What a deleted LPA is stripped down to, besides its `_id`. It belongs to nobody, so
      no user's fetch, list or delete finds it again. */
  function Tombstone(now: int): (r: Doc)
    ensures "updatedAt" in r
    ensures forall user :: !Owned(r, user)
  {
    map["updatedAt" := StoreDate(now)]
  }

  /** The document belongs to `user`. */
  predicate Owned(d: Doc, user: UserId)
  {
    "user" in d && d["user"] == Text(user)
  }

  /** The store after deleting every LPA of `user` at `now`. */
  function AllDeleted(m: map<int, Doc>, user: UserId, now: int): (r: map<int, Doc>)
    ensures r.Keys == m.Keys
    ensures forall id :: id in m ==> !Owned(r[id], user)
    ensures forall id :: id in m && !Owned(m[id], user) ==> r[id] == m[id]
  {
    map id | id in m :: if Owned(m[id], user) then Tombstone(now) else m[id]
  }

  // ---------------------------------------------------------------------------
  // The search box: `is_numeric`, `(int)` and the classification

  predicate IsDigit(c: char)
  {
    '0' <= c <= '9'
  }

  /** White space as `is_numeric` and `(int)` skip it at the front, and as PCRE's `\s`
      matches it: space, tab, newline, vertical tab, form feed, carriage return. */
  predicate IsSpace(c: char)
  {
    c == ' ' || c == '\t' || c == '\n' || c == '\U{0B}' || c == '\U{0C}' || c == '\r'
  }

  /** Length of the run of digits at the start of `s`. */
  function DigitRun(s: string): (n: nat)
    ensures n <= |s|
    ensures forall i :: 0 <= i < n ==> IsDigit(s[i])
    ensures n < |s| ==> !IsDigit(s[n])
  {
    if s != [] && IsDigit(s[0]) then 1 + DigitRun(s[1..]) else 0
  }

  /** `s` without its leading white space. */
  function SkipSpace(s: string): (r: string)
    ensures |r| <= |s| && r == s[|s| - |r|..]
    ensures r == [] || !IsSpace(r[0])
  {
    if s != [] && IsSpace(s[0]) then SkipSpace(s[1..]) else s
  }

  /** `s` without an optional leading sign: one character is dropped exactly when it is
      `+` or `-`. */
  function SkipSign(s: string): (r: string)
    ensures |s| - 1 <= |r| <= |s| && r == s[|s| - |r|..]
    ensures |r| < |s| <==> s != [] && (s[0] == '+' || s[0] == '-')
  {
    if s != [] && (s[0] == '+' || s[0] == '-') then s[1..] else s
  }

  /** What follows the mantissa (digits with an optional fraction, or a fraction alone),
      or `None` when `s` does not start with one. */
  function AfterMantissa(s: string): (r: Option<string>)
    ensures r.Some? ==> |r.value| < |s| && r.value == s[|s| - |r.value|..]
    ensures r.Some? && r.value == [] ==> IsDigit(s[|s| - 1]) || s[|s| - 1] == '.'
  {
    var a := DigitRun(s);
    if a > 0 then
      var rest := s[a..];
      if rest != [] && rest[0] == '.' then Some(rest[1..][DigitRun(rest[1..])..]) else Some(rest)
    else if s != [] && s[0] == '.' && DigitRun(s[1..]) > 0 then Some(s[1..][DigitRun(s[1..])..])
    else None
  }

  /** An exponent: `e` or `E`, an optional sign, and one or more digits to the end. */
  predicate IsExponent(s: string)
  {
    |s| >= 2 && (s[0] == 'e' || s[0] == 'E')
    && var digits := SkipSign(s[1..]);
       digits != [] && DigitRun(digits) == |digits|
  }

  /** PHP 7's `is_numeric` on a string: optional leading white space and sign, a decimal
      mantissa, an optional exponent, and nothing after. In particular trailing white space
      makes a string non-numeric: a numeric string ends in a digit or a point. */
  predicate IsNumeric(s: string)
    ensures IsNumeric(s) ==> s != [] && (IsDigit(s[|s| - 1]) || s[|s| - 1] == '.')
  {
    var m := AfterMantissa(SkipSign(SkipSpace(s)));
    m.Some? && (m.value == [] || IsExponent(m.value))
  }

  /** The value of a string of decimal digits; it is zero exactly when every digit is. */
  function DigitsValue(d: string): (v: nat)
    requires forall i :: 0 <= i < |d| ==> IsDigit(d[i])
    ensures v == 0 <==> forall i :: 0 <= i < |d| ==> d[i] == '0'
  {
    if d == [] then 0
    else
      assert IsDigit(d[|d| - 1]);
      DigitsValue(d[..|d| - 1]) * 10 + (d[|d| - 1] as int - '0' as int)
  }

  /** `(int)$s`: the leading integer after white space and an optional sign, 0 if none.
      Anything but 0 needs a digit there, and a negative value a minus sign. */
  function IntCast(s: string): (r: int)
    ensures r != 0 ==> DigitRun(SkipSign(SkipSpace(s))) > 0
    ensures r < 0 ==> SkipSpace(s) != [] && SkipSpace(s)[0] == '-'
  {
    var t := SkipSpace(s);
    var u := SkipSign(t);
    var n := DigitRun(u);
    var v: int := if n == 0 then 0 else DigitsValue(u[..n]);
    if t != [] && t[0] == '-' then -v else v
  }

  /** `preg_replace('/\s+/', '', $s)`. */
  function StripSpace(s: string): (r: string)
    ensures forall i :: 0 <= i < |r| ==> !IsSpace(r[i])
    ensures |r| <= |s|
  {
    if s == [] then []
    else if IsSpace(s[0]) then StripSpace(s[1..])
    else [s[0]] + StripSpace(s[1..])
  }

  /** A string without white space is its own stripped form. */
  lemma {:induction false} StripSpaceNoSpace(s: string)
    requires forall i :: 0 <= i < |s| ==> !IsSpace(s[i])
    ensures StripSpace(s) == s
  {
    if s != [] {
      StripSpaceNoSpace(s[1..]);
      assert s == [s[0]] + s[1..];
    }
  }

  /** Stripping works piece by piece: the characters that are not white space are kept,
      in order. */
  lemma {:induction false} StripSpaceAppend(a: string, b: string)
    ensures StripSpace(a + b) == StripSpace(a) + StripSpace(b)
  {
    if a == [] {
      assert a + b == b;
    } else {
      assert (a + b)[0] == a[0] && (a + b)[1..] == a[1..] + b;
      StripSpaceAppend(a[1..], b);
    }
  }

  /** `(int)` reads the digits that follow any leading white space and one optional sign,
      and ignores whatever comes after them. */
  lemma IntCastLeadingInteger(pad: string, sign: string, d: string, rest: string)
    requires forall i :: 0 <= i < |pad| ==> IsSpace(pad[i])
    requires |sign| <= 1 && (sign == [] || sign[0] == '+' || sign[0] == '-')
    requires d != [] && forall i :: 0 <= i < |d| ==> IsDigit(d[i])
    requires rest == [] || !IsDigit(rest[0])
    ensures var v: int := DigitsValue(d);
      IntCast(pad + sign + d + rest) == if sign != [] && sign[0] == '-' then -v else v
  {
    var body := d + rest;
    var x := sign + body;
    AppendAfter(pad + sign, d, rest);
    AppendAfter(pad, sign, body);
    SkipSignOfSigned(sign, body);
    SkipSpacePrefix(pad, x);
    DigitRunPrefix(d, rest);
    PrefixOfAppend(d, rest);
    IntCastOfParts(pad + sign + d + rest, d, sign != [] && sign[0] == '-');
  }

  /** `(int)` once the white space, the sign and the digits of `s` are known. */
  lemma IntCastOfParts(s: string, d: string, negative: bool)
    requires SkipSpace(s) != [] ==> (SkipSpace(s)[0] == '-' <==> negative)
    requires SkipSpace(s) == [] ==> !negative
    requires var u := SkipSign(SkipSpace(s)); DigitRun(u) == |d| && u[..|d|] == d
    ensures forall i :: 0 <= i < |d| ==> IsDigit(d[i])
    ensures var v: int := DigitsValue(d); IntCast(s) == if negative then -v else v
  {
  }

  lemma SkipSignOfSigned(sign: string, body: string)
    requires |sign| <= 1 && (sign == [] || sign[0] == '+' || sign[0] == '-')
    requires body != [] && IsDigit(body[0])
    ensures var x := sign + body; x != [] && !IsSpace(x[0]) && SkipSign(x) == body
    ensures (sign + body)[0] == '-' <==> sign != [] && sign[0] == '-'
  {
    if sign == [] {
      assert sign + body == body;
    } else {
      assert (sign + body)[0] == sign[0] && (sign + body)[1..] == body;
    }
  }

  lemma {:induction false} SkipSpacePrefix(pad: string, x: string)
    requires forall i :: 0 <= i < |pad| ==> IsSpace(pad[i])
    requires x != [] && !IsSpace(x[0])
    ensures SkipSpace(pad + x) == x
  {
    if pad == [] {
      assert pad + x == x;
    } else {
      assert (pad + x)[0] == pad[0] && (pad + x)[1..] == pad[1..] + x;
      SkipSpacePrefix(pad[1..], x);
    }
  }

  lemma {:induction false} DigitRunPrefix(d: string, rest: string)
    requires forall i :: 0 <= i < |d| ==> IsDigit(d[i])
    requires rest == [] || !IsDigit(rest[0])
    ensures DigitRun(d + rest) == |d|
  {
    if d == [] {
      assert d + rest == rest;
    } else {
      assert (d + rest)[0] == d[0] && (d + rest)[1..] == d[1..] + rest;
      DigitRunPrefix(d[1..], rest);
    }
  }

  /** A non-empty string of digits is numeric, and casts to its value. */
  lemma DigitsAreNumeric(d: string)
    requires d != [] && forall i :: 0 <= i < |d| ==> IsDigit(d[i])
    ensures IsNumeric(d)
    ensures IntCast(d) == DigitsValue(d)
  {
    DigitsNumeric(d);
    DigitsCast(d);
  }

  lemma DigitsNumeric(d: string)
    requires d != [] && forall i :: 0 <= i < |d| ==> IsDigit(d[i])
    ensures IsNumeric(d)
  {
    DigitsUnchangedBySkips(d);
    DigitRunOfDigits(d);
    assert d[|d|..] == [];
  }

  lemma DigitsCast(d: string)
    requires d != [] && forall i :: 0 <= i < |d| ==> IsDigit(d[i])
    ensures IntCast(d) == DigitsValue(d)
  {
    DigitsUnchangedBySkips(d);
    DigitRunOfDigits(d);
    PrefixOfAppend(d, []);
    IntCastOfParts(d, d, false);
  }

  lemma DigitsUnchangedBySkips(d: string)
    requires d != [] && IsDigit(d[0])
    ensures SkipSpace(d) == d && SkipSign(d) == d
  {
    assert !IsSpace(d[0]);
  }

  lemma {:induction false} DigitRunOfDigits(d: string)
    requires forall i :: 0 <= i < |d| ==> IsDigit(d[i])
    ensures DigitRun(d) == |d|
  {
    if d != [] {
      DigitRunOfDigits(d[1..]);
    }
  }

  /** How the search box is used. */
  datatype Search = ById(id: int) | ByName(pattern: string) | NoSearch

  /** The classification of a trimmed, non-empty search string: a number is an LPA id; an
      `A` or `a` followed by a number (white space ignored) is an LPA reference; anything
      else of three characters or more is matched, case-insensitively, as a substring of
      the names; anything shorter is no search at all. */
  function Classify(search: string): (r: Search)
    ensures IsNumeric(search) ==> r == ById(IntCast(search))
    ensures r.ByName? ==> |search| >= 3 && !IsNumeric(search) && r.pattern == ".*" + search + ".*"
    ensures r == NoSearch <==>
      && !IsNumeric(search)
      && !(search != [] && (search[0] == 'A' || search[0] == 'a') && IsNumeric(StripSpace(search[1..])))
      && |search| < 3
  {
    if IsNumeric(search) then ById(IntCast(search))
    else if search != [] && UM.LowerChar(search[0]) == 'a' && IsNumeric(StripSpace(search[1..])) then
      ById(IntCast(StripSpace(search[1..])))
    else if |search| >= 3 then ByName(".*" + search + ".*")
    else NoSearch
  }

  /** An LPA reference typed as `A` and its digits, spaced out or not, finds that LPA. */
  lemma ReferenceSearchFindsId(d: string, spaced: string)
    requires d != [] && forall i :: 0 <= i < |d| ==> IsDigit(d[i])
    requires StripSpace(spaced) == d
    ensures Classify("A" + spaced) == ById(DigitsValue(d))
  {
    var s := "A" + spaced;
    assert s[1..] == spaced;
    DigitsAreNumeric(d);
    LetterIsNotNumeric(s);
  }

  /** A string starting with a letter other than `e` is not numeric. */
  lemma LetterIsNotNumeric(s: string)
    requires s != [] && s[0] == 'A'
    ensures !IsNumeric(s)
  {
    assert !IsSpace(s[0]);
    assert SkipSpace(s) == s;
    assert SkipSign(s) == s;
    assert DigitRun(s) == 0;
    assert AfterMantissa(s) == None;
  }

  /** A number typed into the search box finds the LPA with that id. */
  lemma NumberSearchFindsId(d: string)
    requires d != [] && forall i :: 0 <= i < |d| ==> IsDigit(d[i])
    ensures Classify(d) == ById(DigitsValue(d))
  {
    DigitsAreNumeric(d);
  }

  /** A condition of a Mongo query: equality, or a regular expression with its options. */
  datatype Condition = Equals(v: Value) | Regex(pattern: string, options: string)

  /** The trimmed search string, when `search` is set to a string that is not blank. */
  function SearchOf(params: Doc): (r: Option<string>)
    ensures r.Some? ==> r.value != []
  {
    if "search" in params && params["search"].Text? && UM.Trim(params["search"].s) != [] then
      Some(UM.Trim(params["search"].s))
    else None
  }

  /** `array_merge($params, $filter)` as conditions: every parameter an equality, when a
      `filter` array is given, and nothing otherwise. */
  function Merged(params: Doc): (r: map<string, Condition>)
    ensures forall k :: k in r ==>
      "filter" in params && (params["filter"].List? || params["filter"].Assoc?)
      && k in params && r[k] == Equals(params[k])
    ensures "filter" in params && (params["filter"].List? || params["filter"].Assoc?) ==>
      r.Keys == params.Keys
  {
    if "filter" in params && (params["filter"].List? || params["filter"].Assoc?) then
      map k | k in params :: Equals(params[k])
    else map[]
  }

  /** What the search box asks for: nothing when `search` is missing or blank. */
  function SearchTerm(params: Doc): (r: Search)
    ensures SearchOf(params).None? ==> r == NoSearch
    ensures SearchOf(params).Some? ==> r == Classify(SearchOf(params).value)
  {
    match SearchOf(params)
    case None => NoSearch
    case Some(search) => Classify(search)
  }

  /** The query `fetchAll` counts and pages through: when a `filter` array is given, every
      parameter becomes an equality (`array_merge($params, $filter)`); the `user` key is
      then always the route user; the search box adds an `_id` or a `search` condition. */
  function ListFilter(params: Doc, user: UserId): (r: map<string, Condition>)
    ensures "user" in r && r["user"] == Equals(Text(user))
    ensures SearchTerm(params).ById? ==> "_id" in r && r["_id"] == Equals(Int(SearchTerm(params).id))
    ensures SearchTerm(params).ByName? ==> "search" in r && r["search"] == Regex(SearchTerm(params).pattern, "i")
    ensures "filter" !in params && SearchTerm(params) == NoSearch ==> r == map["user" := Equals(Text(user))]
  {
    var base := Merged(params)["user" := Equals(Text(user))];
    match SearchTerm(params)
    case ById(n) => base["_id" := Equals(Int(n))]
    case ByName(p) => base["search" := Regex(p, "i")]
    case NoSearch => base
  }

  /** Every other condition of the query is an equality on a parameter, there are such
      conditions only when a `filter` array is given, and then every parameter is one. */
  lemma ListFilterEqualities(params: Doc, user: UserId)
    ensures forall k :: k in ListFilter(params, user) && k != "user" && k != "_id" && k != "search" ==>
      "filter" in params && (params["filter"].List? || params["filter"].Assoc?)
      && k in params && ListFilter(params, user)[k] == Equals(params[k])
    ensures "filter" in params && (params["filter"].List? || params["filter"].Assoc?) ==>
      forall k :: k in params ==> k in ListFilter(params, user)
  {
    var r := ListFilter(params, user);
    var base := Merged(params)["user" := Equals(Text(user))];
    forall k | k in r && k != "user" && k != "_id" && k != "search"
      ensures "filter" in params && (params["filter"].List? || params["filter"].Assoc?)
        && k in params && r[k] == Equals(params[k])
    {
      assert k in base && r[k] == base[k];
      assert k in Merged(params) && base[k] == Merged(params)[k];
    }
  }

  // ---------------------------------------------------------------------------
  // The service

  datatype CreateResult = Created(id: int, lpa: Doc) | Malformed | NoFreeId
  datatype DeleteResult = Deleted | NotFound

  /** The `lpa` collection: documents keyed by `_id`. */
  class LpaCollection {
    var docs: map<int, Doc>

    constructor (initial: map<int, Doc>)
      ensures docs == initial
    {
      docs := initial;
    }
  }

  class ApplicationsService {
    const routeUserId: UserId
    const lpas: LpaCollection

    constructor (routeUserId: UserId, lpas: LpaCollection)
      ensures this.routeUserId == routeUserId && this.lpas == lpas
    {
      this.routeUserId := routeUserId;
      this.lpas := lpas;
    }

    /** The do-while loop of `create`: the draws are tried in order, and the first one that
        is not an id in use is taken. */
    method DrawFreeId(draws: seq<int>) returns (found: Option<int>)
      ensures found == FirstFree(draws, lpas.docs.Keys)
    {
      var i := 0;
      while i < |draws|
        invariant 0 <= i <= |draws|
        invariant FirstFree(draws[i..], lpas.docs.Keys) == FirstFree(draws, lpas.docs.Keys)
      {
        assert draws[i..][1..] == draws[i + 1..];
        if draws[i] !in lpas.docs {
          return Some(draws[i]);
        }
        i := i + 1;
      }
      assert draws[i..] == [];
      return None;
    }

    /** `create($data)`: draws random ids until one is free, builds the LPA from the
        accepted keys of the data, and inserts it only if it is valid. `draws` are the
        random numbers in the order drawn; `valid` is the data model's validation. */
    method Create(data: Option<Doc>, draws: seq<int>, now: int, valid: Doc -> bool) returns (r: CreateResult)
      requires forall i :: 0 <= i < |draws| ==> ID_MIN <= draws[i] <= ID_MAX
      modifies lpas
      ensures FirstFree(draws, old(lpas.docs).Keys).None? ==> r == NoFreeId && lpas.docs == old(lpas.docs)
      ensures FirstFree(draws, old(lpas.docs).Keys).Some? ==>
        var id := FirstFree(draws, old(lpas.docs).Keys).value;
        var lpa := Populated(id, routeUserId, now, if data.Some? then data.value else map[]);
        && (valid(lpa) ==> r == Created(id, lpa) && lpas.docs == old(lpas.docs)[id := DocToStore(lpa)])
        && (!valid(lpa) ==> r == Malformed && lpas.docs == old(lpas.docs))
      ensures r.Created? ==> ID_MIN <= r.id <= ID_MAX && r.id !in old(lpas.docs)
    {
      var incoming := if data.Some? then data.value else map[];
      var found := DrawFreeId(draws);
      if found.None? {
        return NoFreeId;
      }
      var id := found.value;
      var lpa := Populated(id, routeUserId, now, incoming);
      if !valid(lpa) {
        return Malformed;
      }
      lpas.docs := lpas.docs[id := DocToStore(lpa)];
      r := Created(id, lpa);
    }

    /** `fetch($id)`: the LPA only if it has that id and belongs to the route user, read
        back from its stored form, with `id` set from `_id`; otherwise a 404. */
    function Fetch(id: int): (r: Option<Doc>)
      reads lpas
      ensures r.Some? <==> id in lpas.docs && Owned(lpas.docs[id], routeUserId)
      ensures r.Some? ==> r.value.Keys == lpas.docs[id].Keys + {"id"} && r.value["id"] == Int(id)
      ensures r.Some? ==> forall k :: k in lpas.docs[id] && k != "id" ==> r.value[k] == FromStore(lpas.docs[id][k])
    {
      if id in lpas.docs && Owned(lpas.docs[id], routeUserId) then
        Some(DocFromStore(lpas.docs[id])["id" := Int(id)])
      else None
    }

    /** `delete($id)`: an LPA of the route user is replaced by its tombstone; anything
        else is a 404 and changes nothing. */
    method Delete(id: int, now: int) returns (r: DeleteResult)
      modifies lpas
      ensures r == Deleted <==> id in old(lpas.docs) && Owned(old(lpas.docs)[id], routeUserId)
      ensures r == Deleted ==> lpas.docs == old(lpas.docs)[id := Tombstone(now)]
      ensures r == NotFound ==> lpas.docs == old(lpas.docs)
    {
      if !(id in lpas.docs && Owned(lpas.docs[id], routeUserId)) {
        return NotFound;
      }
      lpas.docs := lpas.docs[id := Tombstone(now)];
      r := Deleted;
    }

    /** `deleteAll()`: every LPA of the route user, as found at the start, is deleted one
        by one; the answer is always true. */
    method DeleteAll(now: int) returns (r: bool)
      modifies lpas
      ensures r
      ensures lpas.docs == AllDeleted(old(lpas.docs), routeUserId, now)
    {
      ghost var m0 := lpas.docs;
      var todo := set id | id in lpas.docs && Owned(lpas.docs[id], routeUserId);
      ghost var done: set<int> := {};
      ghost var owned := todo;
      while todo != {}
        invariant todo !! done
        invariant todo + done == owned
        invariant forall id :: id in owned <==> id in m0 && Owned(m0[id], routeUserId)
        invariant lpas.docs.Keys == m0.Keys
        invariant forall id :: id in m0 ==> lpas.docs[id] == (if id in done then Tombstone(now) else m0[id])
        decreases todo
      {
        ghost var some := Elem(todo);
        var k :| k in todo;
        var d := Delete(k, now);
        todo := todo - {k};
        done := done + {k};
      }
      assert done == owned;
      assert forall id :: id in m0 ==> lpas.docs[id] == AllDeleted(m0, routeUserId, now)[id];
      assert lpas.docs == AllDeleted(m0, routeUserId, now);
      r := true;
    }
  }

  /** A deleted id stays taken: a later `create` never hands it out again. */
  lemma DeletedIdNeverReused(m: map<int, Doc>, id: int, now: int, draws: seq<int>)
    requires id in m
    ensures var after := m[id := Tombstone(now)];
      FirstFree(draws, after.Keys).Some? ==> FirstFree(draws, after.Keys).value != id
  {
  }
}
