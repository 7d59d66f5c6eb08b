/** Configuration loading: the choice of decoder by file suffix, and the
    validation and defaulting that turn a decoded document into a typed
    scraper configuration or a `ConfigError`. */
module Config {
  import opened Base
  import opened Strings
  import opened Decimals
  import opened OrderedMaps
  import opened JsonValues
  import opened Errors

  /* ---------- choosing the decoder ---------- */

  datatype Format = Yaml | JsonDocument

  /** `Path.suffix` of a file name: from the last `.` on, provided that dot
      is neither the first nor the last character; otherwise empty. */
  function Suffix(name: string): (r: string)
    ensures r == "" || (2 <= |r| < |name| && r[0] == '.' && r == name[|name| - |r|..])
    ensures forall k | 1 <= k < |r| :: r[k] != '.'
  {
    var i := LastDot(name, |name|);
    if i.Some? && 0 < i.value < |name| - 1 then name[i.value..] else ""
  }

  /** The position of the last `.` in `name[..end]`. */
  function LastDot(name: string, end: nat): (r: Option<nat>)
    requires end <= |name|
    ensures r.Some? ==> r.value < end && name[r.value] == '.'
    ensures r.Some? ==> forall k | r.value < k < end :: name[k] != '.'
    ensures r.None? ==> forall k | 0 <= k < end :: name[k] != '.'
  {
    if end == 0 then None
    else if name[end - 1] == '.' then Some(end - 1)
    else LastDot(name, end - 1)
  }

  /** `_load_raw_config` before reading: a missing file, then the suffix,
      compared case-insensitively. */
  function ConfigFormat(exists': bool, name: string): (r: Result<Format, Error>)
    ensures !exists' ==> r == Failure(ConfigNotFound)
    ensures exists' ==> (r == Success(Yaml) <==> Lower(Suffix(name)) in [".yaml", ".yml"])
    ensures exists' ==> (r == Success(JsonDocument) <==> Lower(Suffix(name)) == ".json")
    ensures exists' && r.Failure? ==> r.error == UnsupportedExtension(Suffix(name))
  {
    var suffix := Suffix(name);
    if !exists' then Failure(ConfigNotFound)
    else if Lower(suffix) in [".yaml", ".yml"] then Success(Yaml)
    else if Lower(suffix) == ".json" then Success(JsonDocument)
    else Failure(UnsupportedExtension(suffix))
  }

  /** A name ending in a dotted extension (with something before it) has
      that extension as its suffix. */
  lemma SuffixOfExtension(stem: string, ext: string)
    requires |stem| > 0 && |ext| >= 2 && ext[0] == '.'
    requires forall k | 1 <= k < |ext| :: ext[k] != '.'
    ensures Suffix(stem + ext) == ext
  {
    var name := stem + ext;
    var i := LastDot(name, |name|);
    assert name[|stem|] == '.';
    assert i.Some? && i.value == |stem| by {
      forall k | |stem| < k < |name|
        ensures name[k] != '.'
      {
        assert name[k] == ext[k - |stem|];
      }
    }
    assert name[|stem|..] == ext;
  }

  /** The documented extensions are accepted in any letter case. */
  lemma ExtensionCaseIgnored(stem: string, ext: string)
    requires |stem| > 0 && |ext| >= 2 && ext[0] == '.'
    requires forall k | 1 <= k < |ext| :: ext[k] != '.'
    ensures Lower(ext) in [".yaml", ".yml"] ==> ConfigFormat(true, stem + ext) == Success(Yaml)
    ensures Lower(ext) == ".json" ==> ConfigFormat(true, stem + ext) == Success(JsonDocument)
    ensures Lower(ext) !in [".yaml", ".yml", ".json"] ==> ConfigFormat(true, stem + ext) == Failure(UnsupportedExtension(ext))
  {
    SuffixOfExtension(stem, ext);
  }

  /* ---------- reading values ---------- */

  /** `d.get(k, default)` on a dict's bindings. */
  function Lookup(f: OrderedMap<Json>, k: string, default: Json): (r: Json)
    ensures !HasKey(f, k) ==> r == default
    ensures HasKey(f, k) ==> exists i | 0 <= i < |f| :: f[i] == (k, r)
  {
    Find(f, k).GetOr(default)
  }

  /** The bindings of a value used as a dict; any other value has no
      `get` or `items` method. */
  function Fields(j: Json): (r: Result<OrderedMap<Json>, Error>)
    ensures r.Success? <==> j.Obj?
    ensures r.Success? ==> r.value == j.fields
    ensures r.Failure? ==> r.error == Raised(AttributeError)
  {
    if j.Obj? then Success(j.fields) else Failure(Raised(AttributeError))
  }

  /** `_require`: `None` is a missing key; any other value passes. */
  function Require(value: Json, key: string): (r: Result<Json, Error>)
    ensures r.Success? <==> value != Null
    ensures r.Success? ==> r.value == value
    ensures r.Failure? ==> r.error == MissingKey(key) && r.error.IsConfigError()
  {
    if value == Null then Failure(MissingKey(key)) else Success(value)
  }

  /** The values `float()` and `int()` accept (text aside). */
  predicate Numeric(j: Json) {
    j.Num? || j.Bool?
  }

  function NumberValue(j: Json): real
    requires Numeric(j)
  {
    if j.Num? then j.n.Value() else if j.b then 1.0 else 0.0
  }

  /** A number with a fraction part: how Python writes a `float`. */
  function AsFloat(d: Decimal): (r: Decimal)
    ensures r.scale >= 1 && r.Value() == d.Value()
  {
    if d.scale == 0 then Decimal(d.mantissa * 10, 1) else d
  }

  /** Python's `float(v)`. */
  function ToFloat(v: Json): (r: Result<Decimal, Error>)
    ensures r.Success? <==> Numeric(v)
    ensures r.Success? ==> r.value.Value() == NumberValue(v) && r.value.scale >= 1
    ensures r.Failure? ==> r.error == Raised(if v.Str? then ValueError else TypeError)
  {
    match v
    case Num(n) => Success(AsFloat(n))
    case Bool(b) => Success(Decimal(if b then 10 else 0, 1))
    case Str(_) => Failure(Raised(ValueError))
    case _ => Failure(Raised(TypeError))
  }

  /** A quotient and its remainder bound, read as real division. */
  lemma QuotientBounds(q: int, m: int, p: nat)
    requires p >= 1 && q * p <= m < (q + 1) * p
    ensures q as real <= m as real / p as real < (q + 1) as real
  {
    var P := p as real;
    var x := m as real / P;
    assert x * P == m as real;
    assert (x - q as real) * P >= 0.0 by {
      assert (q * p) as real == q as real * P;
    }
    assert ((q + 1) as real - x) * P > 0.0 by {
      assert ((q + 1) * p) as real == (q + 1) as real * P;
    }
  }

  /** `Truncate` read on the number's value: toward zero, within one. */
  lemma TruncateValue(n: Decimal)
    ensures n.Value() >= 0.0 ==> Truncate(n) >= 0 && Truncate(n) as real <= n.Value() < Truncate(n) as real + 1.0
    ensures n.Value() < 0.0 ==> Truncate(n) <= 0 && Truncate(n) as real - 1.0 < n.Value() <= Truncate(n) as real
  {
    var t := Truncate(n);
    var p := Pow10(n.scale);
    if n.mantissa >= 0 {
      QuotientBounds(t, n.mantissa, p);
    } else {
      QuotientBounds(-t, -n.mantissa, p);
      assert (-n.mantissa) as real / p as real == -(n.mantissa as real / p as real);
    }
  }

  /** Python's `int(v)`: numbers are truncated toward zero. */
  function ToInt(v: Json): (r: Result<int, Error>)
    ensures r.Success? <==> Numeric(v)
    ensures r.Success? && NumberValue(v) >= 0.0 ==> r.value >= 0 && r.value as real <= NumberValue(v) < r.value as real + 1.0
    ensures r.Success? && NumberValue(v) < 0.0 ==> r.value <= 0 && r.value as real - 1.0 < NumberValue(v) <= r.value as real
    ensures r.Success? && v.Num? && v.n.scale == 0 ==> r.value == v.n.mantissa
    ensures r.Failure? ==> r.error == Raised(if v.Str? then ValueError else TypeError)
  {
    match v
    case Num(n) =>
      TruncateValue(n);
      Success(Truncate(n))
    case Bool(b) => Success(if b then 1 else 0)
    case Str(_) => Failure(Raised(ValueError))
    case _ => Failure(Raised(TypeError))
  }

  /** The values `list()` accepts. */
  predicate Listable(j: Json) {
    j.Arr? || j.Str? || j.Obj?
  }

  /** Python's `list(v)`: a list's items, a text's characters, a dict's keys. */
  function ToList(v: Json): (r: Result<seq<Json>, Error>)
    ensures r.Success? <==> Listable(v)
    ensures v.Arr? ==> r == Success(v.items)
    ensures v.Str? ==> r.Success? && |r.value| == |v.s| && forall k | 0 <= k < |v.s| :: r.value[k] == Str([v.s[k]])
    ensures v.Obj? ==> r.Success? && |r.value| == |v.fields| && forall k | 0 <= k < |v.fields| :: r.value[k] == Str(v.fields[k].0)
    ensures r.Failure? ==> r.error == Raised(TypeError)
  {
    match v
    case Arr(items) => Success(items)
    case Str(s) => Success(seq(|s|, k requires 0 <= k < |s| => Str([s[k]])))
    case Obj(f) => Success(seq(|f|, k requires 0 <= k < |f| => Str(f[k].0)))
    case _ => Failure(Raised(TypeError))
  }

  /** A key that is absent, or bound to a value `float()`/`int()` accept. */
  predicate NumericAt(f: OrderedMap<Json>, k: string) {
    match Find(f, k)
    case None => true
    case Some(v) => Numeric(v)
  }

  /** A key that is absent, or bound to a value `list()` accepts. */
  predicate ListableAt(f: OrderedMap<Json>, k: string) {
    match Find(f, k)
    case None => true
    case Some(v) => Listable(v)
  }

  /* ---------- the typed configuration ---------- */

  datatype RequestSettings = RequestSettings(
    timeout: Decimal,
    maxRetries: int,
    backoffFactor: Decimal,
    delayBetweenRequests: Decimal,
    maxWorkers: int,
    retryStatusForcelist: seq<Json>,
    userAgents: Json,
    headers: Json)

  datatype PaginationConfig = PaginationConfig(
    mode: Json,
    nextSelector: Json,
    maxPages: int,
    urlTemplate: Json,
    start: int,
    end: int)

  datatype CleaningConfig = CleaningConfig(ratingWords: Json, availabilityMap: Json)

  datatype FieldSelector = FieldSelector(selector: Json, attribute: Json, joinBaseUrl: bool)

  datatype ParsingConfig = ParsingConfig(productContainer: Json, fields: OrderedMap<FieldSelector>)

  datatype ScraperConfig = ScraperConfig(
    siteName: Json,
    startUrls: seq<Json>,
    baseUrl: Json,
    request: RequestSettings,
    parsing: ParsingConfig,
    pagination: Option<PaginationConfig>,
    cleaning: CleaningConfig,
    currency: Json,
    maxProducts: Json)

  const DefaultUserAgents: seq<string> := [
    "Mozilla/5.0 (Windows NT 10.0; Win64; x64) AppleWebKit/537.36 (KHTML, like Gecko) Chrome/124.0 Safari/537.36",
    "Mozilla/5.0 (Macintosh; Intel Mac OS X 10_15_7) AppleWebKit/605.1.15 (KHTML, like Gecko) Version/17.0 Safari/605.1.15",
    "Mozilla/5.0 (X11; Linux x86_64) AppleWebKit/537.36 (KHTML, like Gecko) Chrome/123.0 Safari/537.36"
  ]

  const DefaultRetryStatuses: seq<int> := [429, 500, 502, 503, 504]

  function Strs(ss: seq<string>): (r: Json)
    ensures r.Arr? && |r.items| == |ss| && forall k | 0 <= k < |ss| :: r.items[k] == Str(ss[k])
  {
    Arr(seq(|ss|, k requires 0 <= k < |ss| => Str(ss[k])))
  }

  function Ints(ns: seq<int>): (r: Json)
    ensures r.Arr? && |r.items| == |ns| && forall k | 0 <= k < |ns| :: r.items[k] == Num(FromInt(ns[k]))
  {
    Arr(seq(|ns|, k requires 0 <= k < |ns| => Num(FromInt(ns[k]))))
  }

  const EmptyObj: Json := Obj([])

  /* ---------- request settings ---------- */

  /** `raw.get("request", {}) or {}`. */
  function RequestSection(raw: OrderedMap<Json>): Json {
    Or(Lookup(raw, "request", EmptyObj), EmptyObj)
  }

  /** When the request settings load: a dict whose numeric settings are
      numbers and whose status list is list-like, where present. */
  predicate RequestAcceptable(section: Json) {
    && section.Obj?
    && NumericAt(section.fields, "timeout")
    && NumericAt(section.fields, "max_retries")
    && NumericAt(section.fields, "backoff_factor")
    && NumericAt(section.fields, "delay_between_requests")
    && NumericAt(section.fields, "max_workers")
    && ListableAt(section.fields, "retry_status_forcelist")
  }

  /** A float setting: the given number when the key is present, the
      default otherwise. */
  predicate FloatSetting(f: OrderedMap<Json>, k: string, default: Decimal, x: Decimal) {
    match Find(f, k)
    case None => x == default
    case Some(v) => Numeric(v) && x.Value() == NumberValue(v)
  }

  /** An int setting: the given number truncated when the key is present,
      the default otherwise. */
  predicate IntSetting(f: OrderedMap<Json>, k: string, default: int, x: int) {
    match Find(f, k)
    case None => x == default
    case Some(v) => ToInt(v) == Success(x)
  }

  /** The five numeric request settings, converted in argument order. */
  function RequestNumbers(f: OrderedMap<Json>): (r: Result<(Decimal, int, Decimal, Decimal, int), Error>)
    ensures r.Success? <==>
      && NumericAt(f, "timeout")
      && NumericAt(f, "max_retries")
      && NumericAt(f, "backoff_factor")
      && NumericAt(f, "delay_between_requests")
      && NumericAt(f, "max_workers")
    ensures r.Failure? ==> r.error.Raised?
    ensures r.Success? ==>
      var (timeout, maxRetries, backoff, delay, maxWorkers) := r.value;
      && FloatSetting(f, "timeout", Decimal(100, 1), timeout)
      && IntSetting(f, "max_retries", 3, maxRetries)
      && FloatSetting(f, "backoff_factor", Decimal(5, 1), backoff)
      && FloatSetting(f, "delay_between_requests", Decimal(0, 1), delay)
      && IntSetting(f, "max_workers", 1, maxWorkers)
  {
    var timeout :- ToFloat(Lookup(f, "timeout", Num(Decimal(100, 1))));
    var maxRetries :- ToInt(Lookup(f, "max_retries", Num(FromInt(3))));
    var backoff :- ToFloat(Lookup(f, "backoff_factor", Num(Decimal(5, 1))));
    var delay :- ToFloat(Lookup(f, "delay_between_requests", Num(Decimal(0, 1))));
    var maxWorkers :- ToInt(Lookup(f, "max_workers", Num(FromInt(1))));
    Success((timeout, maxRetries, backoff, delay, maxWorkers))
  }

  /** The `RequestSettings(...)` construction, argument by argument. */
  function LoadRequest(raw: OrderedMap<Json>): (r: Result<RequestSettings, Error>)
    ensures r.Success? <==> RequestAcceptable(RequestSection(raw))
    ensures r.Failure? ==> r.error.Raised?
    ensures r.Success? ==>
      var f := RequestSection(raw).fields;
      var s := r.value;
      && RequestNumbers(f) == Success((s.timeout, s.maxRetries, s.backoffFactor, s.delayBetweenRequests, s.maxWorkers))
      && (!HasKey(f, "retry_status_forcelist") ==> s.retryStatusForcelist == Ints(DefaultRetryStatuses).items)
      && (HasKey(f, "retry_status_forcelist") ==> ToList(Lookup(f, "retry_status_forcelist", Null)) == Success(s.retryStatusForcelist))
      && (Truthy(Lookup(f, "user_agents", Null)) ==> s.userAgents == Lookup(f, "user_agents", Null))
      && (!Truthy(Lookup(f, "user_agents", Null)) ==> s.userAgents == Strs(DefaultUserAgents))
      && (Truthy(Lookup(f, "headers", Null)) ==> s.headers == Lookup(f, "headers", Null))
      && (!Truthy(Lookup(f, "headers", Null)) ==> s.headers == EmptyObj)
  {
    var f :- Fields(RequestSection(raw));
    var numbers :- RequestNumbers(f);
    var retries :- ToList(Lookup(f, "retry_status_forcelist", Ints(DefaultRetryStatuses)));
    var (timeout, maxRetries, backoff, delay, maxWorkers) := numbers;
    Success(RequestSettings(
      timeout, maxRetries, backoff, delay, maxWorkers, retries,
      Or(Lookup(f, "user_agents", Null), Strs(DefaultUserAgents)),
      Or(Lookup(f, "headers", Null), EmptyObj)))
  }

  /* ---------- pagination ---------- */

  /** When the pagination settings load: absent or falsy, or a dict whose
      page numbers are numbers where present. */
  predicate PaginationAcceptable(raw: OrderedMap<Json>) {
    var v := Lookup(raw, "pagination", Null);
    Truthy(v) ==>
      && v.Obj?
      && NumericAt(v.fields, "max_pages")
      && NumericAt(v.fields, "start")
      && NumericAt(v.fields, "end")
  }

  /** The `PaginationConfig(...)` construction, present only when the
      `pagination` entry is truthy. */
  function LoadPagination(raw: OrderedMap<Json>): (r: Result<Option<PaginationConfig>, Error>)
    ensures !Truthy(Lookup(raw, "pagination", Null)) ==> r == Success(None)
    ensures r.Success? <==> PaginationAcceptable(raw)
    ensures r.Failure? ==> r.error.Raised?
    ensures r.Success? && r.value.Some? ==>
      var f := Lookup(raw, "pagination", Null).fields;
      var p := r.value.value;
      && p.mode == Lookup(f, "mode", Null)
      && p.nextSelector == Lookup(f, "next_selector", Null)
      && p.urlTemplate == Lookup(f, "url_template", Null)
      && IntSetting(f, "max_pages", 20, p.maxPages)
      && IntSetting(f, "start", 1, p.start)
      && (HasKey(f, "end") ==> IntSetting(f, "end", 0, p.end))
      && (!HasKey(f, "end") ==> p.end == p.start)
  {
    var v := Lookup(raw, "pagination", Null);
    if !Truthy(v) then Success(None)
    else
      var f :- Fields(v);
      var maxPages :- ToInt(Lookup(f, "max_pages", Num(FromInt(20))));
      var start :- ToInt(Lookup(f, "start", Num(FromInt(1))));
      var end :- ToInt(Lookup(f, "end", Lookup(f, "start", Num(FromInt(1)))));
      Success(Some(PaginationConfig(
        Lookup(f, "mode", Null), Lookup(f, "next_selector", Null), maxPages,
        Lookup(f, "url_template", Null), start, end)))
  }

  /* ---------- cleaning maps ---------- */

  /** `raw.get("cleaning") or {}`. */
  function CleaningSection(raw: OrderedMap<Json>): Json {
    Or(Lookup(raw, "cleaning", Null), EmptyObj)
  }

  /** The `CleaningConfig(...)` construction: each map as given when
      truthy, an empty dict otherwise. */
  function LoadCleaning(raw: OrderedMap<Json>): (r: Result<CleaningConfig, Error>)
    ensures r.Success? <==> CleaningSection(raw).Obj?
    ensures r.Failure? ==> r.error == Raised(AttributeError)
    ensures r.Success? ==>
      var f := CleaningSection(raw).fields;
      && (Truthy(Lookup(f, "rating_words", Null)) ==> r.value.ratingWords == Lookup(f, "rating_words", Null))
      && (!Truthy(Lookup(f, "rating_words", Null)) ==> r.value.ratingWords == EmptyObj)
      && (Truthy(Lookup(f, "availability_map", Null)) ==> r.value.availabilityMap == Lookup(f, "availability_map", Null))
      && (!Truthy(Lookup(f, "availability_map", Null)) ==> r.value.availabilityMap == EmptyObj)
  {
    var f :- Fields(CleaningSection(raw));
    Success(CleaningConfig(
      Or(Lookup(f, "rating_words", Null), EmptyObj),
      Or(Lookup(f, "availability_map", Null), EmptyObj)))
  }

  /* ---------- parsing ---------- */

  /** A field entry that defines a selector. */
  predicate IsFieldSpec(v: Json) {
    v.Obj? && HasKey(v.fields, "selector")
  }

  /** Every entry of the `fields` dict defines a selector. */
  predicate AllFieldSpecs(items: OrderedMap<Json>) {
    forall i | 0 <= i < |items| :: IsFieldSpec(items[i].1)
  }

  lemma AllFieldSpecsOfLast(items: OrderedMap<Json>)
    requires |items| > 0
    ensures AllFieldSpecs(items) <==> AllFieldSpecs(items[..|items| - 1]) && IsFieldSpec(items[|items| - 1].1)
    ensures AllFieldSpecs(items[..|items| - 1]) ==> forall j | 0 <= j < |items| - 1 :: IsFieldSpec(items[j].1)
  {
    var n := |items| - 1;
    if AllFieldSpecs(items[..n]) {
      forall j | 0 <= j < n
        ensures IsFieldSpec(items[j].1)
      {
        assert items[..n][j] == items[j];
      }
    }
    if AllFieldSpecs(items[..n]) && IsFieldSpec(items[n].1) {
      forall i | 0 <= i < |items|
        ensures IsFieldSpec(items[i].1)
      {
        if i < n {
          assert items[..n][i] == items[i];
        }
      }
    }
    if AllFieldSpecs(items) {
      forall i | 0 <= i < n
        ensures IsFieldSpec(items[..n][i].1)
      {
        assert items[..n][i] == items[i];
      }
    }
  }

  /** The `FieldSelector(...)` built from a field entry. */
  function FieldOf(v: Json): (r: FieldSelector)
    requires IsFieldSpec(v)
    ensures Find(v.fields, "selector") == Some(r.selector)
    ensures !HasKey(v.fields, "attribute") ==> r.attribute == Null
    ensures HasKey(v.fields, "attribute") ==> Find(v.fields, "attribute") == Some(r.attribute)
    ensures !HasKey(v.fields, "join_base_url") ==> !r.joinBaseUrl
    ensures HasKey(v.fields, "join_base_url") ==> (r.joinBaseUrl <==> Truthy(Find(v.fields, "join_base_url").value))
  {
    FieldSelector(
      Find(v.fields, "selector").value,
      Lookup(v.fields, "attribute", Null),
      Truthy(Lookup(v.fields, "join_base_url", Bool(false))))
  }

  /** The loop over `fields_raw.items()`: the first entry without a
      selector is reported; otherwise every entry is assigned in order. */
  function LoadFields(items: OrderedMap<Json>): (r: Result<OrderedMap<FieldSelector>, Error>)
    ensures r.Success? <==> AllFieldSpecs(items)
    ensures r.Success? ==> forall k :: HasKey(r.value, k) <==> HasKey(items, k)
    ensures r.Failure? ==> r.error.SelectorMissing?
    ensures r.Failure? ==> exists i | 0 <= i < |items| ::
      && !IsFieldSpec(items[i].1)
      && r.error == SelectorMissing(items[i].0)
      && forall j | 0 <= j < i :: IsFieldSpec(items[j].1)
  {
    if |items| == 0 then Success([])
    else
      var n := |items| - 1;
      var init := items[..n];
      var loaded := LoadFields(init);
      if loaded.Failure? then
        assert exists i | 0 <= i < n ::
          && !IsFieldSpec(items[i].1)
          && loaded.error == SelectorMissing(items[i].0)
          && forall j | 0 <= j < i :: IsFieldSpec(items[j].1)
        by {
          var i :| 0 <= i < n && !IsFieldSpec(init[i].1) && loaded.error == SelectorMissing(init[i].0)
                   && forall j | 0 <= j < i :: IsFieldSpec(init[j].1);
          assert init[i] == items[i];
          forall j | 0 <= j < i
            ensures IsFieldSpec(items[j].1)
          {
            assert init[j] == items[j];
          }
        }
        Failure(loaded.error)
      else
        var fields := loaded.value;
        var key, val := items[n].0, items[n].1;
        AllFieldSpecsOfLast(items);
        if !IsFieldSpec(val) then
          Failure(SelectorMissing(key))
        else
          var r := Put(fields, key, FieldOf(val));
          PutHasKey(fields, key, FieldOf(val));
          HasKeyOfLast(items);
          Success(r)
  }

  /** Each field entry's key bound to the selector it defines, in order. */
  function FieldBindings(items: OrderedMap<Json>): (r: OrderedMap<FieldSelector>)
    requires AllFieldSpecs(items)
    ensures |r| == |items|
  {
    seq(|items|, i requires 0 <= i < |items| => (items[i].0, FieldOf(items[i].1)))
  }

  /** In a dict the field keys and their order are kept, each bound to
      the selector its entry defines. */
  lemma {:induction false} FieldKeysPreserved(items: OrderedMap<Json>)
    requires UniqueKeys(items)
    requires LoadFields(items).Success?
    ensures LoadFields(items).value == FieldBindings(items)
    ensures Keys(LoadFields(items).value) == Keys(items)
  {
    if |items| > 0 {
      var n := |items| - 1;
      var init := items[..n];
      assert forall i | 0 <= i < n :: init[i] == items[i];
      assert UniqueKeys(init);
      FieldKeysPreserved(init);
      var fields := LoadFields(init).value;
      var (key, val) := items[n];
      assert LoadFields(items).value == Put(fields, key, FieldOf(val));
      assert !HasKey(fields, key) by {
        assert !HasKey(init, key);
      }
      FieldBindingsOfLast(items);
    }
    BindingKeys(items);
  }

  lemma FieldBindingsOfLast(items: OrderedMap<Json>)
    requires |items| > 0
    requires AllFieldSpecs(items)
    ensures var n := |items| - 1;
            FieldBindings(items) == FieldBindings(items[..n]) + [(items[n].0, FieldOf(items[n].1))]
  {
    var n := |items| - 1;
    var init := items[..n];
    var whole := FieldBindings(items);
    var parts := FieldBindings(init) + [(items[n].0, FieldOf(items[n].1))];
    forall i | 0 <= i < |whole|
      ensures whole[i] == parts[i]
    {
      if i < n {
        assert init[i] == items[i];
        assert parts[i] == FieldBindings(init)[i];
      }
    }
  }

  lemma BindingKeys(items: OrderedMap<Json>)
    requires AllFieldSpecs(items)
    ensures Keys(FieldBindings(items)) == Keys(items)
  {
  }

  /** When the parsing settings load: a dict with a container and a dict
      of fields, each defining a selector. */
  predicate ParsingAcceptable(raw: OrderedMap<Json>) {
    var p := Lookup(raw, "parsing", Null);
    && p.Obj?
    && Lookup(p.fields, "product_container", Null) != Null
    && Lookup(p.fields, "fields", Null).Obj?
    && AllFieldSpecs(Lookup(p.fields, "fields", Null).fields)
  }

  /** A missing-key error for one of the five required keys. */
  predicate IsMissingRequired(e: Error) {
    e in [MissingKey("site_name"), MissingKey("start_urls"), MissingKey("parsing"),
          MissingKey("parsing.product_container"), MissingKey("parsing.fields")]
  }

  /** The parsing section: required keys in order, then the fields. */
  function LoadParsing(raw: OrderedMap<Json>): (r: Result<ParsingConfig, Error>)
    ensures r.Success? <==> ParsingAcceptable(raw)
    ensures r.Failure? && r.error.IsConfigError() ==> r.error.SelectorMissing? || IsMissingRequired(r.error)
    ensures Lookup(raw, "parsing", Null) == Null ==> r == Failure(MissingKey("parsing"))
    ensures
      var p := Lookup(raw, "parsing", Null);
      p.Obj? && Lookup(p.fields, "product_container", Null) == Null ==>
        r == Failure(MissingKey("parsing.product_container"))
    ensures
      var p := Lookup(raw, "parsing", Null);
      p.Obj? && Lookup(p.fields, "product_container", Null) != Null && Lookup(p.fields, "fields", Null) == Null ==>
        r == Failure(MissingKey("parsing.fields"))
    ensures r.Success? ==>
      var p := Lookup(raw, "parsing", Null);
      && r.value.productContainer == Lookup(p.fields, "product_container", Null)
      && r.value.fields == LoadFields(Lookup(p.fields, "fields", Null).fields).value
  {
    var p :- Require(Lookup(raw, "parsing", Null), "parsing");
    var pf :- Fields(p);
    var container :- Require(Lookup(pf, "product_container", Null), "parsing.product_container");
    var fieldsRaw :- Require(Lookup(pf, "fields", Null), "parsing.fields");
    var items :- Fields(fieldsRaw);
    var fields :- LoadFields(items);
    Success(ParsingConfig(container, fields))
  }

  /* ---------- the whole document ---------- */

  /** `_load_raw_config(...) or {}`: an empty document is an empty dict. */
  function RawDocument(loaded: Json): Json {
    Or(loaded, EmptyObj)
  }

  /** `start_urls` passes its check: a non-empty list. */
  predicate StartUrlsValid(v: Json) {
    v.Arr? && |v.items| > 0
  }

  /** Exactly the documents `load_config` accepts. */
  predicate Acceptable(loaded: Json) {
    var raw := RawDocument(loaded);
    && raw.Obj?
    && Lookup(raw.fields, "site_name", Null) != Null
    && StartUrlsValid(Lookup(raw.fields, "start_urls", Null))
    && RequestAcceptable(RequestSection(raw.fields))
    && PaginationAcceptable(raw.fields)
    && CleaningSection(raw.fields).Obj?
    && ParsingAcceptable(raw.fields)
  }

  /** A document whose `site_name` and `start_urls` pass their checks, so
      that the section loaders run. */
  predicate HeadValid(raw: OrderedMap<Json>) {
    && Lookup(raw, "site_name", Null) != Null
    && StartUrlsValid(Lookup(raw, "start_urls", Null))
  }

  /** `load_config` after the file is decoded: the checks and the section
      loaders in the order the source runs them. */
  function LoadConfig(loaded: Json): (r: Result<ScraperConfig, Error>)
    ensures r.Success? <==> Acceptable(loaded)
    ensures
      var raw := RawDocument(loaded);
      raw.Obj? && Lookup(raw.fields, "site_name", Null) == Null ==> r == Failure(MissingKey("site_name"))
    ensures
      var raw := RawDocument(loaded);
      raw.Obj? && Lookup(raw.fields, "site_name", Null) != Null && Lookup(raw.fields, "start_urls", Null) == Null ==>
        r == Failure(MissingKey("start_urls"))
    ensures
      var raw := RawDocument(loaded);
      raw.Obj? && Lookup(raw.fields, "site_name", Null) != Null && Lookup(raw.fields, "start_urls", Null) != Null
        && !StartUrlsValid(Lookup(raw.fields, "start_urls", Null)) ==>
        r == Failure(StartUrlsNotList)
    ensures r.Failure? && r.error.IsConfigError() ==>
      r.error == StartUrlsNotList || r.error.SelectorMissing? || IsMissingRequired(r.error)
    ensures
      var raw := RawDocument(loaded);
      raw.Obj? && HeadValid(raw.fields) && LoadRequest(raw.fields).Failure? ==>
        r == Failure(LoadRequest(raw.fields).error)
    ensures
      var raw := RawDocument(loaded);
      raw.Obj? && HeadValid(raw.fields) && LoadRequest(raw.fields).Success?
        && LoadPagination(raw.fields).Failure? ==>
        r == Failure(LoadPagination(raw.fields).error)
    ensures
      var raw := RawDocument(loaded);
      raw.Obj? && HeadValid(raw.fields) && LoadRequest(raw.fields).Success?
        && LoadPagination(raw.fields).Success? && LoadCleaning(raw.fields).Failure? ==>
        r == Failure(LoadCleaning(raw.fields).error)
    ensures
      var raw := RawDocument(loaded);
      raw.Obj? && HeadValid(raw.fields) && LoadRequest(raw.fields).Success?
        && LoadPagination(raw.fields).Success? && LoadCleaning(raw.fields).Success?
        && LoadParsing(raw.fields).Failure? ==>
        r == Failure(LoadParsing(raw.fields).error)
    ensures r.Success? ==>
      var raw := RawDocument(loaded).fields;
      && r.value.siteName != Null
      && r.value.siteName == Lookup(raw, "site_name", Null)
      && Arr(r.value.startUrls) == Lookup(raw, "start_urls", Null)
      && |r.value.startUrls| > 0
      && (Truthy(Lookup(raw, "base_url", Null)) ==> r.value.baseUrl == Lookup(raw, "base_url", Null))
      && (!Truthy(Lookup(raw, "base_url", Null)) ==> r.value.baseUrl == Null)
      && r.value.maxProducts == Lookup(raw, "max_products", Null)
      && r.value.currency == Lookup(raw, "currency", Null)
      && Success(r.value.request) == LoadRequest(raw)
      && Success(r.value.pagination) == LoadPagination(raw)
      && Success(r.value.cleaning) == LoadCleaning(raw)
      && Success(r.value.parsing) == LoadParsing(raw)
  {
    var raw :- Fields(RawDocument(loaded));
    var siteName :- Require(Lookup(raw, "site_name", Null), "site_name");
    var startUrls :- Require(Lookup(raw, "start_urls", Null), "start_urls");
    if !StartUrlsValid(startUrls) then Failure(StartUrlsNotList)
    else
      var baseUrl := Or(Lookup(raw, "base_url", Null), Null);
      var maxProducts := Lookup(raw, "max_products", Null);
      var currency := Lookup(raw, "currency", Null);
      var request :- LoadRequest(raw);
      var pagination :- LoadPagination(raw);
      var cleaning :- LoadCleaning(raw);
      var parsing :- LoadParsing(raw);
      Success(ScraperConfig(siteName, startUrls.items, baseUrl, request, parsing, pagination, cleaning, currency, maxProducts))
  }
}
