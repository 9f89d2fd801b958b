/** The `uniclipboard://connect` codec (src/lib/mobileSyncConnectUri.ts). */
module ConnectUri {
  import opened JsString
  import Base64Url
  import Decimal
  import Json
  import Utf8

  datatype Candidates = One(url: string) | Many(urls: seq<string>)

  datatype Other = Other(labelText: Option<string>, did: Option<string>, proto: Option<string>, install: Option<string>)

  datatype Payload = Payload(v: int, url: string, urls: seq<string>, user: string, pwd: string, o: map<string, string>)

  datatype Field = UrlField | UserField | PwdField

  datatype Error =
    | InvalidScheme
    | UnsupportedVersion
    | UnsupportedService
    | PayloadDecodeFailed
    | MissingField(field: Field)
    | InvalidUrl
    | UriTooLong(len: nat, max: nat)

  datatype Result<+T> = Success(value: T) | Failure(error: Error)

  const URI_MAX_LEN: nat := 2000

  predicate IsHttp(url: string) {
    StartsWith(url, "http://") || StartsWith(url, "https://")
  }

  // ---------- build ----------

  function UrlList(candidates: Candidates): seq<string> {
    match candidates
    case One(url) => [url]
    case Many(urls) => urls
  }

  function Entry(key: string, value: Option<string>): seq<Json.Member> {
    if value.Some? then [Json.Member(key, Json.Str(value.value))] else []
  }

  /** The supplied fields, in the order of their keys. */
  function OtherEntries(other: Other): seq<Json.Member> {
    Entry("did", other.did) + Entry("install", other.install)
    + Entry("label", other.labelText) + Entry("proto", other.proto)
  }

  /** JavaScript's `<` on strings. */
  predicate Before(a: string, b: string) {
    if b == [] then false
    else if a == [] then true
    else a[0] < b[0] || (a[0] == b[0] && Before(a[1..], b[1..]))
  }

  ghost predicate SortedByKey(entries: seq<Json.Member>) {
    forall i, j :: 0 <= i < j < |entries| ==> Before(entries[i].key, entries[j].key)
  }

  lemma OtherEntriesSorted(other: Other)
    ensures SortedByKey(OtherEntries(other))
  {
    assert Before("did", "install") && Before("did", "label") && Before("did", "proto");
    assert Before("install", "label") && Before("install", "proto") && Before("label", "proto");
    hide Before;
  }

  method Push(entries: seq<Json.Member>, key: string, value: Option<string>) returns (r: seq<Json.Member>)
    ensures r == entries + Entry(key, value)
  {
    r := entries;
    if value.Some? {
      r := r + [Json.Member(key, Json.Str(value.value))];
    }
  }

  /** The source pushes the entries and then sorts them; as they are in order, sorting changes nothing. */
  method BuildOtherMap(other: Other) returns (out: seq<Json.Member>)
    ensures out == OtherEntries(other) && SortedByKey(out)
  {
    OtherEntriesSorted(other);
    hide Entry, SortedByKey;
    var entries := [];
    entries := Push(entries, "did", other.did);
    entries := Push(entries, "install", other.install);
    entries := Push(entries, "label", other.labelText);
    entries := Push(entries, "proto", other.proto);
    assert entries == OtherEntries(other);
    out := [];
    for i := 0 to |entries|
      invariant out == entries[..i]
    {
      out := out + [entries[i]];
    }
  }

  function UrlItems(urls: seq<string>): (items: seq<Json.Json>)
    ensures |items| == |urls|
  {
    seq(|urls|, i requires 0 <= i < |urls| => Json.Str(urls[i]))
  }

  function PayloadMembers(urls: seq<string>, user: string, pwd: string, other: Other): seq<Json.Member>
    requires urls != []
  {
    [Json.Member("v", Json.Num(1)), Json.Member("url", Json.Str(urls[0]))]
    + (if |urls| > 1 then [Json.Member("urls", Json.Arr(UrlItems(urls)))] else [])
    + [Json.Member("user", Json.Str(user)), Json.Member("pwd", Json.Str(pwd))]
    + (if OtherEntries(other) != [] then [Json.Member("o", Json.Obj(OtherEntries(other)))] else [])
  }

  /** The bytes of a payload, before they are written in base64url. */
  function BytesOf(j: Json.Json): seq<Utf8.byte> {
    Utf8.Encode(Json.Stringify(j))
  }

  /** The bytes that are put into the `p` parameter. */
  function PayloadBytes(urls: seq<string>, user: string, pwd: string, other: Other): seq<Utf8.byte>
    requires urls != []
  {
    BytesOf(Json.Obj(PayloadMembers(urls, user, pwd, other)))
  }

  const QUERY := "v" + "=" + "1" + "&" + "svc" + "=" + "mobile-sync" + "&" + "p" + "="

  const PREFIX := "uniclipboard" + "://" + "connect" + "?" + QUERY

  function Build(candidates: Candidates, user: string, pwd: string, other: Other): Result<string> {
    var urls := UrlList(candidates);
    if urls == [] || urls[0] == "" then Failure(MissingField(UrlField))
    else if user == "" then Failure(MissingField(UserField))
    else if pwd == "" then Failure(MissingField(PwdField))
    else if exists u :: u in urls && !IsHttp(u) then Failure(InvalidUrl)
    else
      var uri := PREFIX + Base64Url.Encode(PayloadBytes(urls, user, pwd, other));
      if |uri| > URI_MAX_LEN then Failure(UriTooLong(|uri|, URI_MAX_LEN)) else Success(uri)
  }

  // ---------- parse ----------

  datatype Url = Url(protocol: string, hostname: string, search: string)

  /** `new URL` on `scheme://host[/path][?query][#fragment]`; `None` when there is no scheme. */
  function ParseUrl(raw: string): Option<Url> {
    match Cut(raw, ':')
    case (_, None) => None
    case (scheme, Some(rest)) =>
      if !StartsWith(rest, "//") then Some(Url(Lower(scheme) + ":", "", ""))
      else
        var (beforeFragment, _) := Cut(rest[2..], '#');
        var (place, query) := Cut(beforeFragment, '?');
        Some(Url(Lower(scheme) + ":", Cut(place, '/').0, if query.Some? then query.value else ""))
  }

  /** The first value of a parameter, as `searchParams.get` finds it. */
  function FindParam(pieces: seq<string>, name: string): Option<string> {
    if pieces == [] then None
    else
      var (key, value) := Cut(pieces[0], '=');
      if key == name && pieces[0] != "" then Some(if value.Some? then value.value else "")
      else FindParam(pieces[1..], name)
  }

  function Param(url: Url, name: string): Option<string> {
    FindParam(Split(url.search, '&'), name)
  }

  /** The value of a property: when a key is repeated, the last one counts. */
  function LastMember(members: seq<Json.Member>, key: string): Option<Json.Json> {
    if members == [] then None
    else if members[|members| - 1].key == key then Some(members[|members| - 1].value)
    else LastMember(members[..|members| - 1], key)
  }

  function Property(raw: Json.Json, key: string): Option<Json.Json> {
    if raw.Obj? then LastMember(raw.members, key) else None
  }

  function StringOr(j: Option<Json.Json>): string {
    match j
    case Some(Str(s)) => s
    case _ => ""
  }

  /** The properties of an object whose value is a string. */
  function StringMembers(members: seq<Json.Member>): map<string, string> {
    if members == [] then map[]
    else
      var m := members[|members| - 1];
      var earlier := StringMembers(members[..|members| - 1]);
      match m.value
      case Str(s) => earlier[m.key := s]
      case _ => earlier - {m.key}
  }

  /** The same for an array, whose keys are its indices. */
  function StringItems(items: seq<Json.Json>): map<string, string> {
    if items == [] then map[]
    else
      var earlier := StringItems(items[..|items| - 1]);
      match items[|items| - 1]
      case Str(s) => earlier[Decimal.FromNat(|items| - 1) := s]
      case _ => earlier
  }

  function CoerceOther(j: Option<Json.Json>): map<string, string> {
    match j
    case Some(Obj(members)) => StringMembers(members)
    case Some(Arr(items)) => StringItems(items)
    case _ => map[]
  }

  function CoerceUrls(j: Option<Json.Json>): seq<string> {
    match j
    case Some(Arr(items)) =>
      if forall i: nat :: i < |items| ==> items[i].Str?
      then seq(|items|, i requires 0 <= i < |items| => items[i].s)
      else []
    case _ => []
  }

  function CoercePayload(raw: Json.Json): Result<Payload> {
    if !raw.Obj? && !raw.Arr? then Failure(PayloadDecodeFailed)
    else
      match Property(raw, "v")
      case Some(Num(v)) =>
        Success(Payload(v, StringOr(Property(raw, "url")), CoerceUrls(Property(raw, "urls")),
                        StringOr(Property(raw, "user")), StringOr(Property(raw, "pwd")),
                        CoerceOther(Property(raw, "o"))))
      case _ => Failure(UnsupportedVersion)
  }

  function CheckPayload(payload: Payload): Result<Payload> {
    if payload.v != 1 then Failure(UnsupportedVersion)
    else if payload.url == "" then Failure(MissingField(UrlField))
    else if payload.user == "" then Failure(MissingField(UserField))
    else if payload.pwd == "" then Failure(MissingField(PwdField))
    else if !IsHttp(payload.url) then Failure(InvalidUrl)
    else Success(payload)
  }

  function DecodePayload(p: string): Result<Payload> {
    match Base64Url.Decode(p)
    case None => Failure(PayloadDecodeFailed)
    case Some(bytes) =>
      match Utf8.Decode(bytes)
      case None => Failure(PayloadDecodeFailed)
      case Some(text) =>
        match Json.Parse(text)
        case None => Failure(PayloadDecodeFailed)
        case Some(raw) =>
          match CoercePayload(raw)
          case Failure(e) => Failure(e)
          case Success(payload) => CheckPayload(payload)
  }

  function Parse(qrText: string): Result<Payload> {
    match ParseUrl(Trim(qrText))
    case None => Failure(InvalidScheme)
    case Some(url) =>
      if url.protocol != "uniclipboard:" || url.hostname != "connect" then Failure(InvalidScheme)
      else if Param(url, "v") != Some("1") then Failure(UnsupportedVersion)
      else if Param(url, "svc") != Some("mobile-sync") then Failure(UnsupportedService)
      else
        match Param(url, "p")
        case None => Failure(PayloadDecodeFailed)
        case Some(p) => if p == "" then Failure(PayloadDecodeFailed) else DecodePayload(p)
  }

  // ---------- what build accepts ----------

  lemma SchemeAndHost()
    ensures "uniclipboard" + "://" + "connect" + "?" == "uniclipboard://connect?"
  {
  }

  lemma QueryIs()
    ensures QUERY == "v=1&svc=mobile-sync&p="
  {
  }

  lemma PrefixIs()
    ensures PREFIX == "uniclipboard://connect?v=1&svc=mobile-sync&p=" && |PREFIX| == 45
  {
    SchemeAndHost();
    QueryIs();
    assert PREFIX == "uniclipboard://connect?" + "v=1&svc=mobile-sync&p=";
  }

  /**
   * Which inputs are refused for which reason, in this order of precedence; what remains is accepted
   * exactly if the payload has at most 1466 bytes.
   */
  lemma BuildOutcome(candidates: Candidates, user: string, pwd: string, other: Other)
    ensures var urls := UrlList(candidates);
      var r := Build(candidates, user, pwd, other);
      var hasUrl := urls != [] && urls[0] != "";
      && (r == Failure(MissingField(UrlField)) <==> !hasUrl)
      && (r == Failure(MissingField(UserField)) <==> hasUrl && user == "")
      && (r == Failure(MissingField(PwdField)) <==> hasUrl && user != "" && pwd == "")
      && (r == Failure(InvalidUrl) <==>
            hasUrl && user != "" && pwd != "" && exists u :: u in urls && !("http://" <= u) && !("https://" <= u))
      && (r.Success? <==>
            && hasUrl && user != "" && pwd != "" && (forall u :: u in urls ==> "http://" <= u || "https://" <= u)
            && |PayloadBytes(urls, user, pwd, other)| <= 1466)
      && (r.Success? ==>
            && |r.value| == 45 + (4 * |PayloadBytes(urls, user, pwd, other)| + 2) / 3 <= 2000
            && r.value == "uniclipboard://connect?v=1&svc=mobile-sync&p="
                          + Base64Url.Encode(PayloadBytes(urls, user, pwd, other)))
  {
    PrefixIs();
    var urls := UrlList(candidates);
    if urls != [] {
      Base64Url.EncodedShape(PayloadBytes(urls, user, pwd, other));
      hide PayloadBytes, Base64Url.Encode;
    }
  }

  /** Whatever follows the scheme, neither kind of address is refused as invalid. */
  lemma HttpAccepted(rest: string, user: string, pwd: string, other: Other)
    ensures Build(One("http://" + rest), user, pwd, other) != Failure(InvalidUrl)
    ensures Build(One("https://" + rest), user, pwd, other) != Failure(InvalidUrl)
  {
    BuildOutcome(One("http://" + rest), user, pwd, other);
    BuildOutcome(One("https://" + rest), user, pwd, other);
    assert "http://" <= "http://" + rest && "https://" <= "https://" + rest;
    hide Build;
  }

  // ---------- the text of the payload ----------

  /** `"key":` and a value. */
  function Pair(key: string, value: string): string {
    "\"" + key + "\":" + value
  }

  function PairIf(key: string, value: Option<string>): seq<string> {
    if value.Some? then [Pair(key, Json.Quote(value.value))] else []
  }

  function Quoted(texts: seq<string>): (r: seq<string>)
    ensures |r| == |texts|
  {
    seq(|texts|, i requires 0 <= i < |texts| => Json.Quote(texts[i]))
  }

  function OtherPairs(other: Other): seq<string> {
    PairIf("did", other.did) + PairIf("install", other.install) + PairIf("label", other.labelText)
    + PairIf("proto", other.proto)
  }

  /** The pairs of the payload: the list of addresses only if there are several, `o` only if it is not empty. */
  function PayloadPairs(urls: seq<string>, user: string, pwd: string, other: Other): seq<string>
    requires urls != []
  {
    [Pair("v", "1"), Pair("url", Json.Quote(urls[0]))]
    + (if |urls| > 1 then [Pair("urls", "[" + Join(Quoted(urls), ",") + "]")] else [])
    + [Pair("user", Json.Quote(user)), Pair("pwd", Json.Quote(pwd))]
    + (if OtherPairs(other) != [] then [Pair("o", "{" + Join(OtherPairs(other), ",") + "}")] else [])
  }

  lemma MemberIs(key: string, value: Json.Json)
    requires forall c :: c in key ==> c as int >= 0x20 && c != '\"' && c != '\\'
    ensures Json.StringifyMember(Json.Member(key, value)) == Pair(key, Json.Stringify(value))
  {
    hide Json.EscapeAll, Json.Stringify;
    Json.PlainlyEscaped(key);
  }

  lemma TextsConcat(a: seq<Json.Member>, b: seq<Json.Member>)
    ensures Json.MemberTexts(a + b) == Json.MemberTexts(a) + Json.MemberTexts(b)
  {
    hide Json.StringifyMember;
  }

  lemma EntryTexts(key: string, value: Option<string>)
    requires forall c :: c in key ==> c as int >= 0x20 && c != '\"' && c != '\\'
    ensures Json.MemberTexts(Entry(key, value)) == PairIf(key, value)
  {
    hide Json.StringifyMember, Pair, Json.Quote;
    if value.Some? {
      MemberIs(key, Json.Str(value.value));
    }
  }

  lemma OtherTexts(other: Other)
    ensures Json.MemberTexts(OtherEntries(other)) == OtherPairs(other)
  {
    EntryTexts("did", other.did);
    EntryTexts("install", other.install);
    EntryTexts("label", other.labelText);
    EntryTexts("proto", other.proto);
    hide Entry, PairIf, Json.MemberTexts;
    var a, b := Entry("did", other.did), Entry("install", other.install);
    TextsConcat(a, b);
    TextsConcat(a + b, Entry("label", other.labelText));
    TextsConcat(a + b + Entry("label", other.labelText), Entry("proto", other.proto));
  }

  lemma UrlTexts(urls: seq<string>)
    ensures Json.Stringify(Json.Arr(UrlItems(urls))) == "[" + Join(Quoted(urls), ",") + "]"
  {
    hide Json.Quote, Json.StringifyItems, Join;
    Json.ItemsJoined(UrlItems(urls));
    assert Json.ItemTexts(UrlItems(urls)) == Quoted(urls);
  }

  lemma TwoTexts(a: Json.Member, b: Json.Member)
    ensures Json.MemberTexts([a, b]) == [Json.StringifyMember(a), Json.StringifyMember(b)]
  {
  }

  lemma OneText(a: Json.Member)
    ensures Json.MemberTexts([a]) == [Json.StringifyMember(a)] && Json.MemberTexts([]) == []
  {
  }

  lemma RequiredTexts(urls: seq<string>, user: string, pwd: string)
    requires urls != []
    ensures Json.MemberTexts([Json.Member("v", Json.Num(1)), Json.Member("url", Json.Str(urls[0]))]) ==
            [Pair("v", "1"), Pair("url", Json.Quote(urls[0]))]
    ensures Json.MemberTexts([Json.Member("user", Json.Str(user)), Json.Member("pwd", Json.Str(pwd))]) ==
            [Pair("user", Json.Quote(user)), Pair("pwd", Json.Quote(pwd))]
  {
    assert Json.Stringify(Json.Num(1)) == "1";
    hide Pair, Json.MemberTexts, Json.StringifyMember, Json.Quote;
    MemberIs("v", Json.Num(1));
    MemberIs("url", Json.Str(urls[0]));
    MemberIs("user", Json.Str(user));
    MemberIs("pwd", Json.Str(pwd));
    TwoTexts(Json.Member("v", Json.Num(1)), Json.Member("url", Json.Str(urls[0])));
    TwoTexts(Json.Member("user", Json.Str(user)), Json.Member("pwd", Json.Str(pwd)));
  }

  lemma ListText(urls: seq<string>)
    ensures Json.MemberTexts([Json.Member("urls", Json.Arr(UrlItems(urls)))]) ==
            [Pair("urls", "[" + Join(Quoted(urls), ",") + "]")]
  {
    hide Pair, Json.MemberTexts, Json.StringifyMember, Join, Json.Quote;
    MemberIs("urls", Json.Arr(UrlItems(urls)));
    UrlTexts(urls);
    OneText(Json.Member("urls", Json.Arr(UrlItems(urls))));
  }

  lemma OtherText(other: Other)
    ensures Json.MemberTexts([Json.Member("o", Json.Obj(OtherEntries(other)))]) ==
            [Pair("o", "{" + Join(OtherPairs(other), ",") + "}")]
    ensures OtherEntries(other) == [] <==> OtherPairs(other) == []
  {
    hide Pair, OtherEntries, OtherPairs, Json.StringifyMember, Join, Json.Quote;
    OtherTexts(other);
    Json.MembersJoined(OtherEntries(other));
    MemberIs("o", Json.Obj(OtherEntries(other)));
    OneText(Json.Member("o", Json.Obj(OtherEntries(other))));
  }

  lemma PayloadTexts(urls: seq<string>, user: string, pwd: string, other: Other)
    requires urls != []
    ensures Json.MemberTexts(PayloadMembers(urls, user, pwd, other)) == PayloadPairs(urls, user, pwd, other)
  {
    hide Pair, OtherEntries, OtherPairs, Json.MemberTexts, Json.StringifyMember, Join, Json.Quote;
    var first := [Json.Member("v", Json.Num(1)), Json.Member("url", Json.Str(urls[0]))];
    var list := if |urls| > 1 then [Json.Member("urls", Json.Arr(UrlItems(urls)))] else [];
    var names := [Json.Member("user", Json.Str(user)), Json.Member("pwd", Json.Str(pwd))];
    var o := if OtherEntries(other) != [] then [Json.Member("o", Json.Obj(OtherEntries(other)))] else [];
    RequiredTexts(urls, user, pwd);
    ListText(urls);
    OtherText(other);
    assert Json.MemberTexts([]) == [] by {
      OneText(names[0]);
    }
    TextsConcat(first, list);
    TextsConcat(first + list, names);
    TextsConcat(first + list + names, o);
  }

  /** What is encoded, byte for byte: the fields in this order, without white space, and nothing for what is absent. */
  lemma PayloadLayout(urls: seq<string>, user: string, pwd: string, other: Other)
    requires urls != []
    ensures PayloadBytes(urls, user, pwd, other) ==
            Utf8.Encode("{" + Join(PayloadPairs(urls, user, pwd, other), ",") + "}")
  {
    hide PayloadMembers, PayloadPairs, Utf8.Encode, Join;
    PayloadTexts(urls, user, pwd, other);
    Json.MembersJoined(PayloadMembers(urls, user, pwd, other));
  }

  // ---------- the envelope ----------

  lemma UrlSymbolsOnly(p: string)
    requires forall c :: c in p ==> Base64Url.IsUrlSymbol(c)
    ensures '&' !in p && '#' !in p && '?' !in p && '/' !in p
  {
  }

  lemma LowerOfScheme()
    ensures Lower("uniclipboard") == "uniclipboard"
  {
    assert forall c :: c in "uniclipboard" ==> LowerChar(c) == c;
  }

  lemma Regroup(a: string, b: string, c: string)
    ensures (a + b) + c == a + (b + c)
  {
  }

  lemma PartsFound(uri: string, scheme: string, host: string, query: string)
    requires uri == scheme + "://" + host + "?" + query
    requires ':' !in scheme && '#' !in host && '?' !in host && '/' !in host && '#' !in query
    ensures ParseUrl(uri) == Some(Url(Lower(scheme) + ":", host, query))
  {
    hide Cut, Lower;
    var place := host + ['?'] + query;
    var rest := "//" + place;
    assert uri == scheme + [':'] + rest;
    CutAt(scheme, ':', rest);
    assert rest[2..] == place && StartsWith(rest, "//");
    CutNowhere(place, '#');
    CutAt(host, '?', query);
    CutNowhere(host, '/');
  }

  lemma UriSplits(p: string)
    requires '#' !in p
    ensures ParseUrl(PREFIX + p) == Some(Url("uniclipboard:", "connect", QUERY + p))
  {
    hide ParseUrl, Lower;
    LowerOfScheme();
    assert "uniclipboard" + ":" == "uniclipboard:";
    Regroup("uniclipboard" + "://" + "connect" + "?", QUERY, p);
    assert '#' !in QUERY;
    PartsFound(PREFIX + p, "uniclipboard", "connect", QUERY + p);
  }

  lemma FindParamStep(pieces: seq<string>, key: string, value: string)
    requires pieces != [] && '=' !in key && key != "" && pieces[0] == key + "=" + value
    ensures FindParam(pieces, key) == Some(value)
    ensures forall name :: name != key ==> FindParam(pieces, name) == FindParam(pieces[1..], name)
  {
    CutAt(key, '=', value);
  }

  lemma ParamsFound(url: Url, k: string, a: string, l: string, b: string, m: string, c: string)
    requires url.search == k + "=" + a + "&" + l + "=" + b + "&" + m + "=" + c
    requires k != "" && l != "" && m != "" && k != l && k != m && l != m
    requires '=' !in k && '=' !in l && '=' !in m
    requires forall s :: s in {k, a, l, b, m, c} ==> '&' !in s
    ensures Param(url, k) == Some(a) && Param(url, l) == Some(b) && Param(url, m) == Some(c)
  {
    hide Cut, Split, FindParam;
    var first, second, third := k + "=" + a, l + "=" + b, m + "=" + c;
    assert url.search == first + ['&'] + (second + ['&'] + third);
    SplitFirst(first, '&', second + ['&'] + third);
    SplitFirst(second, '&', third);
    SplitOne(third, '&');
    var pieces := [first, second, third];
    assert Split(url.search, '&') == pieces;
    assert pieces[1..] == [second, third] && pieces[1..][1..] == [third];
    FindParamStep(pieces, k, a);
    FindParamStep(pieces[1..], l, b);
    FindParamStep(pieces[1..][1..], m, c);
  }

  lemma QueryParses(url: Url, p: string)
    requires url.search == QUERY + p && '&' !in p
    ensures Param(url, "v") == Some("1") && Param(url, "svc") == Some("mobile-sync") && Param(url, "p") == Some(p)
  {
    hide Param;
    ParamsFound(url, "v", "1", "svc", "mobile-sync", "p", p);
  }

  lemma EnvelopeParses(text: string, p: string)
    requires Trim(text) == "uniclipboard://connect?v=1&svc=mobile-sync&p=" + p
    requires p != "" && forall c :: c in p ==> Base64Url.IsUrlSymbol(c)
    ensures Parse(text) == DecodePayload(p)
  {
    hide DecodePayload, ParseUrl, Param;
    PrefixIs();
    UrlSymbolsOnly(p);
    var url := Url("uniclipboard:", "connect", QUERY + p);
    UriSplits(p);
    QueryParses(url, p);
  }

  // ---------- any other link ----------

  type Params = seq<(string, string)>

  function ParamTexts(params: Params): (texts: seq<string>)
    ensures |texts| == |params|
  {
    seq(|params|, i requires 0 <= i < |params| => params[i].0 + "=" + params[i].1)
  }

  /** The first value of a parameter. */
  function FirstValue(params: Params, name: string): Option<string> {
    if params == [] then None
    else if params[0].0 == name then Some(params[0].1)
    else FirstValue(params[1..], name)
  }

  /** No separators where they would end something. */
  ghost predicate CleanParams(params: Params) {
    forall p :: p in params ==> '=' !in p.0 && '&' !in p.0 && '#' !in p.0 && '&' !in p.1 && '#' !in p.1
  }

  lemma {:induction false} FindsFirst(params: Params, name: string)
    requires CleanParams(params)
    ensures FindParam(ParamTexts(params), name) == FirstValue(params, name)
  {
    if params != [] {
      var (key, value) := params[0];
      assert params[0] in params && forall p :: p in params[1..] ==> p in params;
      FindsFirst(params[1..], name);
      assert ParamTexts(params)[1..] == ParamTexts(params[1..]);
      assert key + "=" + value == key + ['='] + value;
      CutAt(key, '=', value);
    }
  }

  lemma {:induction false} JoinedWithout(texts: seq<string>, sep: string, c: char)
    requires c !in sep && forall t :: t in texts ==> c !in t
    ensures c !in Join(texts, sep)
  {
    if texts != [] {
      assert texts[0] in texts && forall t :: t in texts[1..] ==> t in texts;
      if |texts| > 1 {
        JoinedWithout(texts[1..], sep, c);
      }
    }
  }

  lemma TextsAreClean(params: Params)
    requires CleanParams(params)
    ensures forall t :: t in ParamTexts(params) ==> '&' !in t && '#' !in t
  {
    forall i | 0 <= i < |params|
      ensures '&' !in ParamTexts(params)[i] && '#' !in ParamTexts(params)[i]
    {
      assert params[i] in params;
    }
  }

  lemma ParamsRead(url: Url, params: Params, name: string)
    requires params != [] && CleanParams(params) && url.search == Join(ParamTexts(params), "&")
    ensures Param(url, name) == FirstValue(params, name)
  {
    hide FindParam, ParamTexts;
    TextsAreClean(params);
    SplitOfJoin(ParamTexts(params), '&');
    FindsFirst(params, name);
  }

  lemma SchemeExactly(scheme: string)
    ensures Lower(scheme) + ":" == "uniclipboard:" <==> EqualsIgnoringCase(scheme, "uniclipboard")
  {
    LowerExactly(scheme, "uniclipboard");
    hide Lower, EqualsIgnoringCase;
    if Lower(scheme) + ":" == "uniclipboard:" {
      assert (Lower(scheme) + ":")[..|scheme|] == Lower(scheme);
    }
  }

  lemma PayloadErrors(p: string)
    ensures var r := DecodePayload(p);
      r != Failure(InvalidScheme) && r != Failure(UnsupportedService)
  {
    hide Base64Url.Decode, Utf8.Decode, Json.Parse, Property, CoerceUrls, CoerceOther, IsHttp;
  }

  /**
   * Which links are refused for what stands around the payload, in this order of precedence: the scheme, in any
   * mixture of cases, and the host; then the first values of `v`, `svc` and `p`, whatever else the query contains.
   */
  lemma EnvelopeOutcome(text: string, scheme: string, host: string, params: Params)
    requires Trim(text) == scheme + "://" + host + "?" + Join(ParamTexts(params), "&")
    requires ':' !in scheme && '#' !in host && '?' !in host && '/' !in host && params != [] && CleanParams(params)
    ensures var r := Parse(text);
      var ours := EqualsIgnoringCase(scheme, "uniclipboard") && host == "connect";
      var v, svc, p := FirstValue(params, "v"), FirstValue(params, "svc"), FirstValue(params, "p");
      && (r == Failure(InvalidScheme) <==> !ours)
      && (ours && v != Some("1") ==> r == Failure(UnsupportedVersion))
      && (r == Failure(UnsupportedService) <==> ours && v == Some("1") && svc != Some("mobile-sync"))
      && (ours && v == Some("1") && svc == Some("mobile-sync") ==>
            r == if p == None || p == Some("") then Failure(PayloadDecodeFailed) else DecodePayload(p.value))
  {
    hide ParseUrl, Param, DecodePayload, ParamTexts, Lower, FirstValue, EqualsIgnoringCase, Trim, Join;
    var query := Join(ParamTexts(params), "&");
    TextsAreClean(params);
    JoinedWithout(ParamTexts(params), "&", '#');
    PartsFound(Trim(text), scheme, host, query);
    var url := Url(Lower(scheme) + ":", host, query);
    SchemeExactly(scheme);
    ParamsRead(url, params, "v");
    ParamsRead(url, params, "svc");
    ParamsRead(url, params, "p");
    if FirstValue(params, "p").Some? {
      PayloadErrors(FirstValue(params, "p").value);
    }
  }

  /** A text without a scheme is no link. */
  lemma NoSchemeRefused(text: string)
    requires ':' !in Trim(text)
    ensures Parse(text) == Failure(InvalidScheme)
  {
    CutNowhere(Trim(text), ':');
  }

  // ---------- the payload ----------

  lemma {:induction false} LastMemberAt(members: seq<Json.Member>, i: nat, key: string)
    requires i < |members| && members[i].key == key
    requires forall j :: i < j < |members| ==> members[j].key != key
    ensures LastMember(members, key) == Some(members[i].value)
  {
    if i < |members| - 1 {
      LastMemberAt(members[..|members| - 1], i, key);
    }
  }

  lemma {:induction false} NoMember(members: seq<Json.Member>, key: string)
    requires forall j :: 0 <= j < |members| ==> members[j].key != key
    ensures LastMember(members, key) == None
  {
    if members != [] {
      NoMember(members[..|members| - 1], key);
    }
  }

  ghost predicate Carries(o: map<string, string>, key: string, value: Option<string>) {
    if value.Some? then key in o && o[key] == value.value else key !in o
  }

  /** The map the payload's `o` must become: the supplied fields, empty strings included, and no others. */
  ghost predicate ExactlyOther(o: map<string, string>, other: Other) {
    && o.Keys <= {"did", "install", "label", "proto"}
    && Carries(o, "did", other.did)
    && Carries(o, "install", other.install)
    && Carries(o, "label", other.labelText)
    && Carries(o, "proto", other.proto)
  }

  /** Whatever object arrives as `o`, exactly the keys whose value, the last one counting, is a string are kept. */
  lemma {:induction false} StringMembersAre(members: seq<Json.Member>, key: string)
    ensures key in StringMembers(members) <==> LastMember(members, key).Some? && LastMember(members, key).value.Str?
    ensures key in StringMembers(members) ==> LastMember(members, key) == Some(Json.Str(StringMembers(members)[key]))
  {
    if members != [] {
      StringMembersAre(members[..|members| - 1], key);
    }
  }

  lemma NumeralsDiffer(m: nat, n: nat)
    ensures Decimal.FromNat(m) == Decimal.FromNat(n) <==> m == n
  {
    Decimal.NumeralOf(m);
    Decimal.NumeralOf(n);
  }

  /** An array that arrives as `o` is read as an object whose keys are the indices. */
  lemma {:induction false} StringItemsAre(items: seq<Json.Json>, i: nat, key: string)
    ensures key in StringItems(items) ==> exists j :: 0 <= j < |items| && key == Decimal.FromNat(j) && items[j].Str?
    ensures i < |items| ==> (Decimal.FromNat(i) in StringItems(items) <==> items[i].Str?)
    ensures i < |items| && items[i].Str? ==> StringItems(items)[Decimal.FromNat(i)] == items[i].s
  {
    hide Decimal.FromNat;
    if items != [] {
      var n := |items| - 1;
      StringItemsAre(items[..n], i, key);
      NumeralsDiffer(i, n);
      if i == n {
        StringItemsBelow(items[..n]);
      }
    }
  }

  lemma StringItemsBelow(items: seq<Json.Json>)
    ensures Decimal.FromNat(|items|) !in StringItems(items)
  {
    hide Decimal.FromNat;
    if Decimal.FromNat(|items|) in StringItems(items) {
      StringItemsAre(items, 0, Decimal.FromNat(|items|));
      var j :| 0 <= j < |items| && Decimal.FromNat(|items|) == Decimal.FromNat(j);
      NumeralsDiffer(|items|, j);
    }
  }

  lemma EntryAdded(members: seq<Json.Member>, key: string, value: Option<string>)
    ensures StringMembers(members + Entry(key, value)) ==
            if value.Some? then StringMembers(members)[key := value.value] else StringMembers(members)
  {
    if value.Some? {
      assert (members + Entry(key, value))[..|members|] == members;
    } else {
      assert members + Entry(key, value) == members;
    }
  }

  lemma NoStrings()
    ensures StringMembers([]) == map[]
  {
  }

  lemma OtherCoerced(other: Other)
    ensures ExactlyOther(StringMembers(OtherEntries(other)), other)
  {
    hide StringMembers, Entry;
    var did := Entry("did", other.did);
    var install := did + Entry("install", other.install);
    var lbl := install + Entry("label", other.labelText);
    assert StringMembers([]) == map[] && did == [] + did by {
      NoStrings();
    }
    EntryAdded([], "did", other.did);
    EntryAdded(did, "install", other.install);
    EntryAdded(install, "label", other.labelText);
    EntryAdded(lbl, "proto", other.proto);
  }

  lemma UrlsCoerced(urls: seq<string>)
    ensures CoerceUrls(Some(Json.Arr(UrlItems(urls)))) == urls
  {
  }

  lemma RequiredMembers(urls: seq<string>, user: string, pwd: string, other: Other)
    requires urls != []
    ensures var m := PayloadMembers(urls, user, pwd, other);
      && LastMember(m, "v") == Some(Json.Num(1)) && LastMember(m, "url") == Some(Json.Str(urls[0]))
      && LastMember(m, "user") == Some(Json.Str(user)) && LastMember(m, "pwd") == Some(Json.Str(pwd))
  {
    hide OtherEntries, LastMember;
    var m := PayloadMembers(urls, user, pwd, other);
    var k := if |urls| > 1 then 3 else 2;
    LastMemberAt(m, 0, "v");
    LastMemberAt(m, 1, "url");
    LastMemberAt(m, k, "user");
    LastMemberAt(m, k + 1, "pwd");
  }

  lemma OptionalMembers(urls: seq<string>, user: string, pwd: string, other: Other)
    requires urls != []
    ensures var m := PayloadMembers(urls, user, pwd, other);
      && LastMember(m, "urls") == (if |urls| > 1 then Some(Json.Arr(UrlItems(urls))) else None)
      && LastMember(m, "o") == if OtherEntries(other) != [] then Some(Json.Obj(OtherEntries(other))) else None
  {
    hide OtherEntries, LastMember;
    var m := PayloadMembers(urls, user, pwd, other);
    if |urls| > 1 {
      LastMemberAt(m, 2, "urls");
    } else {
      NoMember(m, "urls");
    }
    if OtherEntries(other) == [] {
      NoMember(m, "o");
    } else {
      LastMemberAt(m, |m| - 1, "o");
    }
  }

  lemma PayloadCoerced(urls: seq<string>, user: string, pwd: string, other: Other)
    requires urls != []
    ensures CoercePayload(Json.Obj(PayloadMembers(urls, user, pwd, other))) ==
            Success(Payload(1, urls[0], if |urls| > 1 then urls else [], user, pwd, StringMembers(OtherEntries(other))))
  {
    hide StringMembers, OtherEntries, LastMember, PayloadMembers, UrlItems;
    RequiredMembers(urls, user, pwd, other);
    OptionalMembers(urls, user, pwd, other);
    UrlsCoerced(urls);
    NoStrings();
  }

  lemma BytesDecode(j: Json.Json)
    ensures Utf8.Decode(BytesOf(j)) == Some(Json.Stringify(j)) && BytesOf(j) != []
  {
    Json.StringifyStarts(j);
    Utf8.RoundTrip(Json.Stringify(j));
    assert Utf8.EncodeChar(Json.Stringify(j)[0]) != [];
  }

  /** A text without a leading byte order mark. */
  function WithoutMark(s: string): string {
    if s != "" && s[0] == '\U{FEFF}' then s[1..] else s
  }

  lemma DecodedIs(bytes: seq<Utf8.byte>)
    requires Utf8.DecodeStrict(bytes).Some?
    ensures Utf8.Decode(bytes) == Some(WithoutMark(Utf8.DecodeStrict(bytes).value))
  {
    hide Utf8.DecodeStrict;
  }

  /** Reading a link that carries any JSON value whatever comes down to judging that value. */
  lemma AnyPayloadRead(j: Json.Json, text: string)
    requires Trim(text) == "uniclipboard://connect?v=1&svc=mobile-sync&p=" + Base64Url.Encode(BytesOf(j))
    ensures Parse(text) == match CoercePayload(j)
                           case Failure(e) => Failure(e)
                           case Success(payload) => CheckPayload(payload)
  {
    hide Parse, CoercePayload, CheckPayload, BytesOf, Base64Url.Encode, Base64Url.Decode, Json.Parse, Json.Stringify;
    BytesDecode(j);
    Base64Url.EncodedShape(BytesOf(j));
    EnvelopeParses(text, Base64Url.Encode(BytesOf(j)));
    Base64Url.RoundTrip(BytesOf(j));
    Json.RoundTrip(j);
  }

  /** A payload that is not base64url, not UTF-8, not JSON or neither object nor array is refused as undecodable,
      and no other. */
  lemma UndecodableExactly(text: string, p: string)
    requires Trim(text) == "uniclipboard://connect?v=1&svc=mobile-sync&p=" + p
    requires p != "" && forall c :: c in p ==> Base64Url.IsUrlSymbol(c)
    ensures Parse(text) == Failure(PayloadDecodeFailed) <==>
            || |p| % 4 == 1
            || !exists s :: Base64Url.Decode(p) == Some(Utf8.Encode(s))
                            && Json.Parse(WithoutMark(s)).Some?
                            && (Json.Parse(WithoutMark(s)).value.Obj? || Json.Parse(WithoutMark(s)).value.Arr?)
  {
    hide Parse, Base64Url.Decode, Json.Parse, Property, CoerceUrls, CoerceOther, IsHttp, Utf8.Encode, WithoutMark,
        Utf8.DecodeStrict;
    EnvelopeParses(text, p);
    Base64Url.DecodesExactly(p);
    if |p| % 4 != 1 {
      var bytes := Base64Url.Decode(p).value;
      if Utf8.DecodeStrict(bytes).Some? {
        Utf8.OnlyEncodingsAccepted(bytes);
        DecodedIs(bytes);
      }
      forall s | Utf8.Encode(s) == bytes
        ensures Utf8.DecodeStrict(bytes) == Some(s)
      {
        Utf8.StrictRoundTrip(s);
      }
    }
  }

  /** The list of addresses: the items of an array of strings; anything else counts as an empty list. */
  ghost predicate AddressesAre(urls: seq<string>, j: Option<Json.Json>) {
    if j.Some? && j.value.Arr? && forall x :: x in j.value.items ==> x.Str?
    then |urls| == |j.value.items| && forall i :: 0 <= i < |urls| ==> j.value.items[i] == Json.Str(urls[i])
    else urls == []
  }

  /** What is kept of `o`: of an object its last values, of an array its items, strings only; otherwise nothing. */
  ghost predicate KeptOf(o: map<string, string>, j: Option<Json.Json>) {
    match j
    case Some(Obj(members)) =>
      forall key, s :: key in o && o[key] == s <==> LastMember(members, key) == Some(Json.Str(s))
    case Some(Arr(items)) =>
      && (forall key :: key in o ==> exists i: nat :: i < |items| && key == Decimal.FromNat(i))
      && forall i: nat :: i < |items| ==>
           (Decimal.FromNat(i) in o <==> items[i].Str?)
           && (items[i].Str? ==> o[Decimal.FromNat(i)] == items[i].s)
    case _ => o == map[]
  }

  lemma KeptExactly(j: Option<Json.Json>)
    ensures KeptOf(CoerceOther(j), j)
  {
    hide StringMembers, StringItems, LastMember, Decimal.FromNat;
    match j
    case Some(Obj(members)) =>
      forall key, s
        ensures key in CoerceOther(j) && CoerceOther(j)[key] == s <==> LastMember(members, key) == Some(Json.Str(s))
      {
        StringMembersAre(members, key);
      }
    case Some(Arr(items)) =>
      forall key | key in CoerceOther(j)
        ensures exists i: nat :: i < |items| && key == Decimal.FromNat(i)
      {
        StringItemsAre(items, 0, key);
      }
      forall i: nat | i < |items|
        ensures Decimal.FromNat(i) in CoerceOther(j) <==> items[i].Str?
        ensures items[i].Str? ==> CoerceOther(j)[Decimal.FromNat(i)] == items[i].s
      {
        StringItemsAre(items, i, "");
      }
    case _ =>
  }

  lemma UrlsAre(j: Option<Json.Json>)
    ensures AddressesAre(CoerceUrls(j), j)
  {
    if j.Some? && j.value.Arr? {
      var items := j.value.items;
      assert (forall x :: x in items ==> x.Str?) <==> forall i: nat :: i < |items| ==> items[i].Str?;
    }
  }

  /** Which payload objects, ours or not, are refused for which reason, in this order of precedence. */
  lemma PayloadOutcome(members: seq<Json.Member>, text: string)
    requires Trim(text) == "uniclipboard://connect?v=1&svc=mobile-sync&p="
                           + Base64Url.Encode(BytesOf(Json.Obj(members)))
    ensures var r := Parse(text);
      var version := LastMember(members, "v") == Some(Json.Num(1));
      var (url, user, pwd) := (StringOr(LastMember(members, "url")), StringOr(LastMember(members, "user")),
                               StringOr(LastMember(members, "pwd")));
      && (r == Failure(UnsupportedVersion) <==> !version)
      && (r == Failure(MissingField(UrlField)) <==> version && url == "")
      && (r == Failure(MissingField(UserField)) <==> version && url != "" && user == "")
      && (r == Failure(MissingField(PwdField)) <==> version && url != "" && user != "" && pwd == "")
      && (r == Failure(InvalidUrl) <==>
            version && url != "" && user != "" && pwd != "" && !("http://" <= url) && !("https://" <= url))
      && (r.Success? <==> version && user != "" && pwd != "" && ("http://" <= url || "https://" <= url))
      && (r.Success? ==>
            && (r.value.url, r.value.user, r.value.pwd) == (url, user, pwd)
            && AddressesAre(r.value.urls, LastMember(members, "urls")) && KeptOf(r.value.o, LastMember(members, "o")))
  {
    hide Parse, Trim, LastMember, StringOr, CoerceUrls, AddressesAre, CoerceOther, KeptOf, BytesOf, Base64Url.Encode;
    AnyPayloadRead(Json.Obj(members), text);
    UrlsAre(LastMember(members, "urls"));
    KeptExactly(LastMember(members, "o"));
  }

  lemma {:induction false} LastMemberWithout(members: seq<Json.Member>, i: nat, extra: Json.Member, key: string)
    requires i <= |members| && extra.key != key
    ensures LastMember(members[..i] + [extra] + members[i..], key) == LastMember(members, key)
  {
    var more := members[..i] + [extra] + members[i..];
    if i < |members| {
      var n := |members| - 1;
      assert more[..n + 1] == members[..n][..i] + [extra] + members[..n][i..];
      LastMemberWithout(members[..n], i, extra, key);
    } else {
      assert more[..i] == members;
    }
  }

  /** A member this version does not know, wherever it stands, changes nothing. */
  lemma UnknownMembersIgnored(members: seq<Json.Member>, i: nat, extra: Json.Member)
    requires i <= |members| && extra.key !in {"v", "url", "urls", "user", "pwd", "o"}
    ensures CoercePayload(Json.Obj(members[..i] + [extra] + members[i..])) == CoercePayload(Json.Obj(members))
  {
    hide LastMember;
    forall key | key != extra.key
      ensures LastMember(members[..i] + [extra] + members[i..], key) == LastMember(members, key)
    {
      LastMemberWithout(members, i, extra, key);
    }
  }

  ghost predicate DistinctKeys(members: seq<Json.Member>) {
    forall i, j :: 0 <= i < j < |members| ==> members[i].key != members[j].key
  }

  lemma {:induction false} LastMemberIn(members: seq<Json.Member>, m: Json.Member)
    requires DistinctKeys(members)
    ensures LastMember(members, m.key) == Some(m.value) <==> m in members
  {
    if members != [] {
      var n := |members| - 1;
      LastMemberIn(members[..n], m);
      assert members == members[..n] + [members[n]];
    }
  }

  /** The order of the members does not matter. */
  lemma MemberOrderIgnored(members: seq<Json.Member>, others: seq<Json.Member>)
    requires DistinctKeys(members) && DistinctKeys(others) && forall m :: m in members <==> m in others
    ensures CoercePayload(Json.Obj(members)) == CoercePayload(Json.Obj(others))
  {
    hide LastMember, DistinctKeys;
    forall key
      ensures LastMember(members, key) == LastMember(others, key)
    {
      if LastMember(members, key).Some? {
        LastMemberIn(members, Json.Member(key, LastMember(members, key).value));
        LastMemberIn(others, Json.Member(key, LastMember(members, key).value));
      } else if LastMember(others, key).Some? {
        LastMemberIn(members, Json.Member(key, LastMember(others, key).value));
        LastMemberIn(others, Json.Member(key, LastMember(others, key).value));
      }
    }
  }

  /**
   * Everything put into a link comes out of it again, whatever white space surrounds it: through
   * JSON escaping, UTF-8, base64url and the query string.
   */
  lemma RoundTrip(candidates: Candidates, user: string, pwd: string, other: Other, text: string)
    requires Build(candidates, user, pwd, other).Success?
    requires Trim(text) == Build(candidates, user, pwd, other).value
    ensures var urls := UrlList(candidates);
      var r := Parse(text);
      && urls != [] && r.Success?
      && r.value == Payload(1, urls[0], if |urls| > 1 then urls else [], user, pwd, r.value.o)
      && ExactlyOther(r.value.o, other)
  {
    hide Build, Parse, CoercePayload, PayloadMembers, BytesOf, Base64Url.Encode, ExactlyOther, StringMembers,
        OtherEntries;
    var urls := UrlList(candidates);
    BuildOutcome(candidates, user, pwd, other);
    var members := PayloadMembers(urls, user, pwd, other);
    AnyPayloadRead(Json.Obj(members), text);
    PayloadCoerced(urls, user, pwd, other);
    OtherCoerced(other);
    assert urls[0] in urls;
    assert IsHttp(urls[0]);
  }

  /** A link contains nothing that `trim` would remove, so it can also be read as it is. */
  lemma LinksAreTrimmed(candidates: Candidates, user: string, pwd: string, other: Other)
    requires Build(candidates, user, pwd, other).Success?
    ensures Trim(Build(candidates, user, pwd, other).value) == Build(candidates, user, pwd, other).value
  {
    hide Trim, Base64Url.Encode, IsHttp, BytesOf, PayloadMembers;
    var urls := UrlList(candidates);
    var uri := Build(candidates, user, pwd, other).value;
    var bytes := PayloadBytes(urls, user, pwd, other);
    BytesDecode(Json.Obj(PayloadMembers(urls, user, pwd, other)));
    Base64Url.EncodedShape(bytes);
    var p := Base64Url.Encode(bytes);
    assert Base64Url.IsUrlSymbol(p[|p| - 1]);
    assert uri == PREFIX + p && uri[|uri| - 1] == p[|p| - 1] && uri[0] == 'u';
    TrimTrims(uri);
  }

  /** So a link comes through with any white space around it. */
  lemma SurroundedLinkParses(candidates: Candidates, user: string, pwd: string, other: Other, before: string,
                             after: string)
    requires Build(candidates, user, pwd, other).Success?
    requires forall c :: c in before || c in after ==> c in " \t\r\n"
    ensures var urls := UrlList(candidates);
      var r := Parse(before + Build(candidates, user, pwd, other).value + after);
      && urls != [] && r.Success?
      && r.value == Payload(1, urls[0], if |urls| > 1 then urls else [], user, pwd, r.value.o)
      && ExactlyOther(r.value.o, other)
  {
    hide Build, Parse, Trim, ExactlyOther;
    var link := Build(candidates, user, pwd, other).value;
    LinksAreTrimmed(candidates, user, pwd, other);
    TrimTrims(link);
    BuildOutcome(candidates, user, pwd, other);
    TrimRemoves(before, link, after);
    RoundTrip(candidates, user, pwd, other, before + link + after);
  }

  /** Whatever text is accepted, the payload meets the conditions build imposes on the first address. */
  lemma ParsedIsChecked(text: string)
    requires Parse(text).Success?
    ensures var payload := Parse(text).value;
      && payload.v == 1 && payload.user != "" && payload.pwd != ""
      && ("http://" <= payload.url || "https://" <= payload.url)
  {
    hide ParseUrl, Param, Trim, Base64Url.Decode, Utf8.Decode, Json.Parse, CoercePayload;
  }
}
