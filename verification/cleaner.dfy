/** The field cleaners: each scraped record becomes a product with a numeric
    price, rating and review count, a canonical availability label, and the
    identity text its product id is hashed from. */
module Cleaner {
  import opened Base
  import opened Strings
  import opened Decimals
  import opened Scan
  import opened OrderedMaps
  import opened Errors

  /** A value of a scraped record: Python `None`, a number, a text, or a
      list of class names whose entries may be `None`. */
  datatype Raw = Null | Number(n: Decimal) | Text(s: string) | TextList(items: seq<Option<string>>)

  type Record = OrderedMap<Raw>

  predicate Truthy(v: Raw) {
    match v
    case Null => false
    case Number(n) => n.mantissa != 0
    case Text(s) => |s| > 0
    case TextList(items) => |items| > 0
  }

  /** Python's `record.get(key)`. */
  function Get(rec: Record, key: string): Raw {
    Find(rec, key).GetOr(Null)
  }

  /** Python's `a or b`. */
  function Or(a: Raw, b: Raw): (r: Raw)
    ensures Truthy(r) <==> Truthy(a) || Truthy(b)
    ensures r == a || r == b
  {
    if Truthy(a) then a else b
  }

  /** Python's `repr` of a list entry without quotes, backslashes or
      non-printable characters. */
  function Repr(e: Option<string>): string {
    match e
    case None => "None"
    case Some(s) => "'" + s + "'"
  }

  /** Python's `str(v)`. */
  function AsText(v: Raw): string {
    match v
    case Null => "None"
    case Number(n) => Show(n)
    case Text(s) => s
    case TextList(items) => "[" + Join(", ", seq(|items|, k requires 0 <= k < |items| => Repr(items[k]))) + "]"
  }

  /** `_normalise_text`. */
  function NormaliseText(v: Raw): string {
    Normalise(AsText(v))
  }

  predicate HasDigit(t: string) {
    exists k | 0 <= k < |t| :: IsDigit(t[k])
  }

  lemma {:induction false} RemoveKeepsHasDigit(s: string, c: char)
    requires !IsDigit(c)
    ensures HasDigit(Remove(s, c)) <==> HasDigit(s)
  {
    if |s| > 0 {
      RemoveKeepsHasDigit(s[1..], c);
      var head: string := if s[0] == c then "" else [s[0]];
      var rest := Remove(s[1..], c);
      assert Remove(s, c) == head + rest;
      if HasDigit(s) && !IsDigit(s[0]) {
        var k :| 0 <= k < |s| && IsDigit(s[k]);
        assert s[1..][k - 1] == s[k];
      }
      if HasDigit(s[1..]) {
        var k :| 0 <= k < |s[1..]| && IsDigit(s[1..][k]);
        assert s[k + 1] == s[1..][k];
      }
      if HasDigit(rest) {
        var k :| 0 <= k < |rest| && IsDigit(rest[k]);
        assert Remove(s, c)[|head| + k] == rest[k];
      }
      if IsDigit(s[0]) {
        assert Remove(s, c)[0] == s[0];
      }
    }
  }

  // ---- the label and rating maps ----

  const DefaultAvailability: OrderedMap<string> := [
    ("in stock", "in_stock"),
    ("available", "in_stock"),
    ("out of stock", "out_of_stock"),
    ("out-of-stock", "out_of_stock"),
    ("pre-order", "preorder"),
    ("preorder", "preorder")
  ]

  const DefaultRatingWords: OrderedMap<Decimal> := [
    ("zero", FromInt(0)),
    ("one", FromInt(1)),
    ("two", FromInt(2)),
    ("three", FromInt(3)),
    ("four", FromInt(4)),
    ("five", FromInt(5))
  ]

  /** The first binding, in map order, whose key occurs in `text`. */
  function FirstContained<V>(m: OrderedMap<V>, text: string): (r: Option<V>)
    ensures r.None? <==> forall i | 0 <= i < |m| :: !Contains(text, m[i].0)
    ensures r.Some? ==> exists i | 0 <= i < |m| ::
              && Contains(text, m[i].0) && m[i].1 == r.value
              && forall i' | 0 <= i' < i :: !Contains(text, m[i'].0)
  {
    if |m| == 0 then None
    else if Contains(text, m[0].0) then Some(m[0].1)
    else
      var r := FirstContained(m[1..], text);
      assert forall i | 1 <= i < |m| :: m[1..][i - 1] == m[i];
      r
  }

  // ---- the cleaners ----

  /** `_clean_price`: `None` stays `None`, a number passes through, and any
      other value is `None` exactly when its normalised text has no digit. */
  function CleanPrice(v: Raw): (r: Option<Decimal>)
    ensures v.Null? ==> r.None?
    ensures v.Number? ==> r == Some(v.n)
    ensures (v.Text? || v.TextList?) ==> (r.None? <==> !HasDigit(NormaliseText(v)))
  {
    match v
    case Null => None
    case Number(n) => Some(n)
    case _ =>
      var t := NormaliseText(v);
      match Search(PricePattern, t)
      case None => None
      case Some(l) => Some(LexemeValue(PricePattern, t, l))
  }

  /** The price of a text is `float` of the first signed number in it,
      commas deleted; that text is always a literal `float` accepts. */
  lemma PriceIsFirstNumber(v: Raw) returns (i: nat, j: nat)
    requires v.Text? || v.TextList?
    requires HasDigit(NormaliseText(v))
    ensures var t := NormaliseText(v);
            && FirstMatch(PricePattern, t, i, j)
            && Token(LiteralPattern, Remove(t[i..j], ','))
            && CleanPrice(v).value == LiteralValue(Remove(t[i..j], ','))
  {
    var t := NormaliseText(v);
    PriceOfMatch(v);
    var l := Search(PricePattern, t).value;
    SearchFindsFirstMatch(PricePattern, t);
    MatchIsLiteral(PricePattern, t, l);
    i, j := l.start, l.end;
  }

  lemma PriceOfMatch(v: Raw)
    requires v.Text? || v.TextList?
    requires HasDigit(NormaliseText(v))
    ensures var t := NormaliseText(v);
            && Search(PricePattern, t).Some?
            && CleanPrice(v) == Some(LexemeValue(PricePattern, t, Search(PricePattern, t).value))
  {
  }

  /** `_clean_review_count`: `None` exactly for `None` or a text without
      digits; a count is never negative. */
  function CleanReviewCount(v: Raw): (r: Option<nat>)
    ensures r.None? <==> v.Null? || !HasDigit(NormaliseText(v))
  {
    if v.Null? then None
    else
      var u := Remove(NormaliseText(v), ',');
      RemoveKeepsHasDigit(NormaliseText(v), ',');
      match Search(CountPattern, u)
      case None => None
      case Some(l) =>
        CountMatchDigits(u, l);
        Some(DigitsValue(u[l.start..l.end]))
  }

  /** The count is `int` of the first digit run once commas are deleted. */
  lemma CountIsFirstDigitRun(v: Raw) returns (i: nat, j: nat)
    requires CleanReviewCount(v).Some?
    ensures var u := Remove(NormaliseText(v), ',');
            && FirstMatch(CountPattern, u, i, j)
            && AllDigits(u[i..j])
            && CleanReviewCount(v).value == DigitsValue(u[i..j])
  {
    var u := Remove(NormaliseText(v), ',');
    var l := Search(CountPattern, u).value;
    SearchFindsFirstMatch(CountPattern, u);
    CountMatchDigits(u, l);
    i, j := l.start, l.end;
  }

  /** The first non-`None` entry whose lowercase form is a rating word. */
  function ListedWord(items: seq<Option<string>>, words: OrderedMap<Decimal>): (r: Option<Decimal>)
    ensures r.None? <==> forall k | 0 <= k < |items| :: items[k].None? || !HasKey(words, Lower(items[k].value))
    ensures r.Some? ==> exists k | 0 <= k < |items| ::
              && items[k].Some? && Find(words, Lower(items[k].value)) == r
              && forall k' | 0 <= k' < k :: items[k'].None? || !HasKey(words, Lower(items[k'].value))
  {
    if |items| == 0 then None
    else if items[0].Some? && HasKey(words, Lower(items[0].value)) then Find(words, Lower(items[0].value))
    else
      var r := ListedWord(items[1..], words);
      assert forall k | 1 <= k < |items| :: items[1..][k - 1] == items[k];
      r
  }

  /** `_clean_rating`: a listed class name first, then the first number in
      the text, then the first rating word the lowercase text contains. */
  function CleanRating(v: Raw, words: OrderedMap<Decimal>): (r: Option<Decimal>)
    ensures v.Null? ==> r.None?
    ensures v.TextList? && ListedWord(v.items, words).Some? ==> r == ListedWord(v.items, words)
    ensures !v.Null? && !(v.TextList? && ListedWord(v.items, words).Some?) ==>
              (r.None? <==> !HasDigit(NormaliseText(v)) && forall i | 0 <= i < |words| :: !Contains(Lower(NormaliseText(v)), words[i].0))
    ensures !v.Null? && !(v.TextList? && ListedWord(v.items, words).Some?) && !HasDigit(NormaliseText(v)) && r.Some? ==>
              var lower := Lower(NormaliseText(v));
              exists i | 0 <= i < |words| ::
                && Contains(lower, words[i].0) && r.value == words[i].1
                && forall i' | 0 <= i' < i :: !Contains(lower, words[i'].0)
  {
    if v.Null? then None
    else if v.TextList? && ListedWord(v.items, words).Some? then ListedWord(v.items, words)
    else
      var t := NormaliseText(v);
      match Search(RatingPattern, t)
      case Some(l) => Some(LexemeValue(RatingPattern, t, l))
      case None => FirstContained(words, Lower(t))
  }

  /** Unless a class name is listed, a number in the text wins: the rating
      is `float` of the first unsigned number, whatever the rating words. */
  lemma NumberBeatsWords(v: Raw, words: OrderedMap<Decimal>) returns (i: nat, j: nat)
    requires !v.Null? && !(v.TextList? && ListedWord(v.items, words).Some?)
    requires HasDigit(NormaliseText(v))
    ensures CleanRating(v, words) == CleanRating(v, [])
    ensures var t := NormaliseText(v);
            && FirstMatch(RatingPattern, t, i, j)
            && Token(LiteralPattern, t[i..j])
            && CleanRating(v, words) == Some(LiteralValue(t[i..j]))
  {
    var t := NormaliseText(v);
    SearchFindsFirstMatch(RatingPattern, t);
    var l := Search(RatingPattern, t).value;
    NumberIsRating(v, words);
    if v.TextList? {
      assert ListedWord(v.items, []).None?;
    }
    NumberIsRating(v, []);
    MatchIsLiteral(RatingPattern, t, l);
    UngroupedMatchHasNoComma(RatingPattern, t, l);
    i, j := l.start, l.end;
  }

  lemma NumberIsRating(v: Raw, words: OrderedMap<Decimal>)
    requires !v.Null? && !(v.TextList? && ListedWord(v.items, words).Some?)
    requires Search(RatingPattern, NormaliseText(v)).Some?
    ensures var t := NormaliseText(v);
            CleanRating(v, words) == Some(LexemeValue(RatingPattern, t, Search(RatingPattern, t).value))
  {
  }

  lemma ContainsInEmpty(n: string)
    ensures Contains("", n) <==> n == ""
  {
    if n == "" {
      assert n <= ""[0..];
    }
  }

  lemma LowerEmpty(t: string)
    ensures Lower(t) == "" <==> t == ""
  {
    assert |Lower(t)| == |t|;
  }

  /** `_standardise_availability`: `None` only for `None` or an empty text
      (unless the map has the empty key); otherwise the label of the first
      key, in map order, the lowercase text contains, or "unknown". */
  function StandardiseAvailability(v: Raw, labels: OrderedMap<string>): (r: Option<string>)
    ensures r.None? <==> v.Null? || (NormaliseText(v) == "" && forall i | 0 <= i < |labels| :: labels[i].0 != "")
    ensures r.Some? ==>
              var lower := Lower(NormaliseText(v));
              || (exists i | 0 <= i < |labels| ::
                    && Contains(lower, labels[i].0) && r.value == labels[i].1
                    && forall i' | 0 <= i' < i :: !Contains(lower, labels[i'].0))
              || (r.value == "unknown" && forall i | 0 <= i < |labels| :: !Contains(lower, labels[i].0))
  {
    if v.Null? then None
    else
      var text := NormaliseText(v);
      var lower := Lower(text);
      LowerEmpty(text);
      var found := FirstContained(labels, lower);
      if found.Some? then found
      else if lower != "" then Some("unknown")
      else
        NothingInEmpty(labels);
        None
  }

  /** Only the empty key occurs in the empty text. */
  lemma NothingInEmpty<V>(m: OrderedMap<V>)
    ensures (forall i | 0 <= i < |m| :: !Contains("", m[i].0)) <==> (forall i | 0 <= i < |m| :: m[i].0 != "")
  {
    forall i | 0 <= i < |m| {
      ContainsInEmpty(m[i].0);
    }
  }

  // ---- the product id ----

  /** A product-id part as `p.strip().lower()`. */
  function CleanPart(s: string): string {
    Lower(Strip(s))
  }

  predicate NoUpper(s: string) {
    forall k | 0 <= k < |s| :: !('A' <= s[k] <= 'Z')
  }

  lemma LowerHasNoUpper(s: string)
    ensures NoUpper(Lower(s))
  {
  }

  /** `strip` can be called on every truthy part. */
  predicate Strippable(parts: seq<Raw>) {
    forall k | 0 <= k < |parts| :: Truthy(parts[k]) ==> parts[k].Text?
  }

  predicate NoneTruthy(parts: seq<Raw>) {
    forall k | 0 <= k < |parts| :: !Truthy(parts[k])
  }

  predicate AllNoUpper(ss: seq<string>) {
    forall k | 0 <= k < |ss| :: NoUpper(ss[k])
  }

  lemma PartsOfLast(parts: seq<Raw>)
    requires |parts| > 0
    ensures var n := |parts| - 1;
            && (Strippable(parts) <==> Strippable(parts[..n]) && (Truthy(parts[n]) ==> parts[n].Text?))
            && (NoneTruthy(parts) <==> NoneTruthy(parts[..n]) && !Truthy(parts[n]))
  {
    var n := |parts| - 1;
    assert forall k | 0 <= k < n :: parts[..n][k] == parts[k];
  }

  /** The cleaned truthy parts; `strip` on a truthy value that is not a
      text raises `AttributeError`. */
  function CleanedParts(parts: seq<Raw>): (r: Result<seq<string>, Error>)
    ensures r.Success? <==> Strippable(parts)
    ensures r.Failure? ==> r.error == Raised(AttributeError)
    ensures r.Success? ==> (|r.value| == 0 <==> NoneTruthy(parts))
    ensures r.Success? ==> AllNoUpper(r.value)
  {
    if |parts| == 0 then Success([])
    else
      var n := |parts| - 1;
      PartsOfLast(parts);
      var init :- CleanedParts(parts[..n]);
      if !Truthy(parts[n]) then Success(init)
      else if parts[n].Text? then
        var part := CleanPart(parts[n].s);
        LowerHasNoUpper(Strip(parts[n].s));
        assert (init + [part])[|init|] == part;
        Success(init + [part])
      else Failure(Raised(AttributeError))
  }

  /** `cleaned` is the truthy parts, in order, each stripped and
      lowercased: the parts at the increasing positions `idx`, where a
      position is listed exactly when its part is truthy. */
  predicate TruthyPartsAt(parts: seq<Raw>, cleaned: seq<string>, idx: seq<nat>) {
    && |idx| == |cleaned|
    && (forall k | 0 <= k < |idx| ::
          idx[k] < |parts| && parts[idx[k]].Text? && cleaned[k] == CleanPart(parts[idx[k]].s))
    && (forall k, k' | 0 <= k < k' < |idx| :: idx[k] < idx[k'])
    && (forall i | 0 <= i < |parts| :: Truthy(parts[i]) <==> i in idx)
  }

  /** The positions extend by one more part. */
  lemma ExtendTruthyParts(parts: seq<Raw>, cleanedInit: seq<string>, init: seq<nat>, cleaned: seq<string>)
    returns (idx: seq<nat>)
    requires |parts| > 0
    requires TruthyPartsAt(parts[..|parts| - 1], cleanedInit, init)
    requires Truthy(parts[|parts| - 1]) ==> parts[|parts| - 1].Text?
    requires cleaned == cleanedInit + (if Truthy(parts[|parts| - 1]) then [CleanPart(parts[|parts| - 1].s)] else [])
    ensures TruthyPartsAt(parts, cleaned, idx)
  {
    var n := |parts| - 1;
    var kept := if Truthy(parts[n]) then [n] else [];
    idx := init + kept;
    forall i | 0 <= i < |parts|
      ensures Truthy(parts[i]) <==> i in idx
    {
      if i < n {
        assert parts[..n][i] == parts[i];
        assert i in init <==> i in idx;
      }
    }
  }

  /** The cleaned parts are exactly the truthy parts, in order, each
      stripped and lowercased. */
  lemma {:induction false} CleanedPartsAreTruthyParts(parts: seq<Raw>) returns (idx: seq<nat>)
    requires CleanedParts(parts).Success?
    ensures TruthyPartsAt(parts, CleanedParts(parts).value, idx)
  {
    if |parts| == 0 {
      idx := [];
    } else {
      var n := |parts| - 1;
      CleanedPartsOfLast(parts);
      var init := CleanedPartsAreTruthyParts(parts[..n]);
      idx := ExtendTruthyParts(parts, CleanedParts(parts[..n]).value, init, CleanedParts(parts).value);
    }
  }

  /** A successful cleaning of the parts extends that of all but the last. */
  lemma CleanedPartsOfLast(parts: seq<Raw>)
    requires |parts| > 0 && CleanedParts(parts).Success?
    ensures var n := |parts| - 1;
            && CleanedParts(parts[..n]).Success?
            && (Truthy(parts[n]) ==> parts[n].Text?)
            && CleanedParts(parts).value
               == CleanedParts(parts[..n]).value + (if Truthy(parts[n]) then [CleanPart(parts[n].s)] else [])
  {
  }

  lemma {:induction false} JoinNoUpper(sep: string, parts: seq<string>)
    requires NoUpper(sep) && forall k | 0 <= k < |parts| :: NoUpper(parts[k])
    ensures NoUpper(Join(sep, parts))
  {
    if |parts| > 1 {
      JoinNoUpper(sep, parts[1..]);
    }
  }

  /** The text `_stable_product_id` hashes: the cleaned truthy parts among
      product URL, source URL, title and category, joined by "|", or
      "unknown" when that is empty. It is never empty and has no upper-case
      letter. */
  function IdBase(title: Raw, category: Raw, productUrl: Raw, sourceUrl: Raw): (r: Result<string, Error>)
    ensures var parts := [productUrl, sourceUrl, title, category];
            && (r.Success? <==> forall k | 0 <= k < 4 :: Truthy(parts[k]) ==> parts[k].Text?)
            && (r.Failure? ==> r.error == Raised(AttributeError))
            && ((forall k | 0 <= k < 4 :: !Truthy(parts[k])) ==> r == Success("unknown"))
    ensures r.Success? ==> |r.value| > 0 && NoUpper(r.value)
    ensures r.Success? ==>
              var cleaned := CleanedParts([productUrl, sourceUrl, title, category]);
              && cleaned.Success?
              && r.value == if Join("|", cleaned.value) == "" then "unknown" else Join("|", cleaned.value)
  {
    var cleaned :- CleanedParts([productUrl, sourceUrl, title, category]);
    var base := Join("|", cleaned);
    JoinNoUpper("|", cleaned);
    if base == "" then Success("unknown") else Success(base)
  }

  lemma LowerKeepsSpace(s: string)
    ensures |Lower(s)| == |s|
    ensures forall k | 0 <= k < |s| :: IsSpace(Lower(s)[k]) <==> IsSpace(s[k])
  {
  }

  /** A text with no whitespace at either end is its own strip. */
  lemma StripOfStripped(s: string)
    requires |s| == 0 || (!IsSpace(s[0]) && !IsSpace(s[|s| - 1]))
    ensures Strip(s) == s
  {
  }

  /** Cleaning a part twice is cleaning it once, so ids do not change when
      parts are already stored in their cleaned form. */
  lemma CleanPartIdempotent(s: string)
    ensures CleanPart(CleanPart(s)) == CleanPart(s)
  {
    var st := Strip(s);
    var c := Lower(st);
    LowerKeepsSpace(st);
    assert |c| == 0 || (!IsSpace(c[0]) && !IsSpace(c[|c| - 1]));
    StripOfStripped(c);
    LowerIdempotent(st);
  }

  lemma LowerIdempotent(s: string)
    ensures Lower(Lower(s)) == Lower(s)
  {
    assert forall k | 0 <= k < |s| :: Lower(Lower(s))[k] == LowerChar(LowerChar(s[k])) == LowerChar(s[k]);
  }

  // ---- records to products ----

  /** The maps `clean_products` cleans with, as `CleaningConfig` declares them. */
  datatype CleaningMaps = CleaningMaps(ratingWords: OrderedMap<Decimal>, availabilityMap: OrderedMap<string>)

  /** A cleaned product; `idBase` stands for the id hashed from it, and the
      scrape timestamp is not modelled. */
  datatype Product = Product(
    idBase: string,
    title: Raw,
    name: Raw,
    priceCurrent: Option<Decimal>,
    priceOriginal: Option<Decimal>,
    rating: Option<Decimal>,
    availability: Option<string>,
    imageUrl: Raw,
    url: Raw,
    productUrl: Raw,
    sourceUrl: Raw,
    category: Raw,
    currency: Raw,
    reviewCount: Option<nat>,
    description: Raw)

  function RatingWords(cleaning: Option<CleaningMaps>): OrderedMap<Decimal> {
    Merge(DefaultRatingWords, if cleaning.Some? then cleaning.value.ratingWords else [])
  }

  function AvailabilityLabels(cleaning: Option<CleaningMaps>): OrderedMap<string> {
    Merge(DefaultAvailability, if cleaning.Some? then cleaning.value.availabilityMap else [])
  }

  /** Configured words and phrases override the defaults key by key; the
      defaults keep their places in the first-match order and new keys are
      tried after them, in configuration order. */
  lemma ConfiguredMapsOverrideDefaults(c: CleaningMaps, key: string)
    requires UniqueKeys(c.ratingWords) && UniqueKeys(c.availabilityMap)
    ensures Find(RatingWords(Some(c)), key)
            == if HasKey(c.ratingWords, key) then Find(c.ratingWords, key) else Find(DefaultRatingWords, key)
    ensures Find(AvailabilityLabels(Some(c)), key)
            == if HasKey(c.availabilityMap, key) then Find(c.availabilityMap, key) else Find(DefaultAvailability, key)
    ensures RatingWords(Some(c))
            == Overridden(DefaultRatingWords, c.ratingWords) + Added(DefaultRatingWords, c.ratingWords)
    ensures AvailabilityLabels(Some(c))
            == Overridden(DefaultAvailability, c.availabilityMap) + Added(DefaultAvailability, c.availabilityMap)
  {
    assert UniqueKeys(DefaultRatingWords);
    assert UniqueKeys(DefaultAvailability);
    MergeFind(DefaultRatingWords, c.ratingWords, key);
    MergeFind(DefaultAvailability, c.availabilityMap, key);
    MergeShape(DefaultRatingWords, c.ratingWords);
    MergeShape(DefaultAvailability, c.availabilityMap);
  }

  /** `category_val`: the first truthy one of `category`, `genre`, `type`
      and `category_name`, or the last of them. */
  function CategoryValue(rec: Record): (r: Raw)
    ensures Truthy(r) <==> Truthy(Get(rec, "category")) || Truthy(Get(rec, "genre"))
                           || Truthy(Get(rec, "type")) || Truthy(Get(rec, "category_name"))
  {
    Or(Or(Or(Get(rec, "category"), Get(rec, "genre")), Get(rec, "type")), Get(rec, "category_name"))
  }

  /** The record keys `clean_products` reads. */
  const ReadKeys: set<string> := {
    "title", "name", "category", "genre", "type", "category_name", "product_url", "url", "source_url",
    "price_current", "price_original", "rating", "availability", "image_url", "currency", "review_count",
    "description"}

  /** Keys the cleaner does not read have no effect on the product: setting
      one, to any value, leaves the cleaned row as it was. */
  lemma CleanRecordReadsOnlyItsKeys(rec: Record, k: string, v: Raw, currency: Raw,
                                    words: OrderedMap<Decimal>, labels: OrderedMap<string>)
    requires k !in ReadKeys
    ensures CleanRecord(Put(rec, k, v), currency, words, labels) == CleanRecord(rec, currency, words, labels)
  {
    forall key | key in ReadKeys
      ensures Get(Put(rec, k, v), key) == Get(rec, key)
    {
      PutKeepsOthers(rec, k, v, key);
    }
  }

  /** One record to one product. The category is never falsy (it falls
      back to "unknown"), the name falls back to the title, and the title to
      the name. */
  function CleanRecord(rec: Record, currency: Raw, words: OrderedMap<Decimal>, labels: OrderedMap<string>)
    : (r: Result<Product, Error>)
    ensures r.Success? ==> Truthy(r.value.category)
    ensures r.Success? ==> r.value.category == Or(CategoryValue(rec), Text("unknown"))
    ensures r.Success? ==> r.value.title == Or(Get(rec, "title"), Get(rec, "name"))
    ensures r.Success? ==> r.value.name == Or(Get(rec, "name"), r.value.title)
    ensures r.Success? ==> (Truthy(r.value.title) <==> Truthy(Get(rec, "title")) || Truthy(Get(rec, "name")))
    ensures r.Success? ==> r.value.productUrl == Or(Get(rec, "product_url"), Get(rec, "url"))
    ensures r.Success? ==> r.value.currency == Or(Get(rec, "currency"), currency)
    ensures r.Success? ==> (Truthy(r.value.currency) <==> Truthy(Get(rec, "currency")) || Truthy(currency))
    ensures r.Success? ==>
              && r.value.url == Get(rec, "url")
              && r.value.imageUrl == Get(rec, "image_url")
              && r.value.sourceUrl == Get(rec, "source_url")
              && r.value.description == Get(rec, "description")
    ensures var id := IdBase(Or(Get(rec, "title"), Get(rec, "name")), CategoryValue(rec),
                             Or(Get(rec, "product_url"), Get(rec, "url")), Get(rec, "source_url"));
            && (r.Success? <==> id.Success?)
            && (r.Success? ==> r.value.idBase == id.value)
    ensures r.Failure? ==> r.error == Raised(AttributeError)
    ensures r.Success? ==> |r.value.idBase| > 0 && NoUpper(r.value.idBase)
    ensures r.Success? ==>
              && r.value.priceCurrent == CleanPrice(Get(rec, "price_current"))
              && r.value.priceOriginal == CleanPrice(Get(rec, "price_original"))
              && r.value.rating == CleanRating(Get(rec, "rating"), words)
              && r.value.availability == StandardiseAvailability(Get(rec, "availability"), labels)
              && r.value.reviewCount == CleanReviewCount(Get(rec, "review_count"))
  {
    var title := Or(Get(rec, "title"), Get(rec, "name"));
    var category := CategoryValue(rec);
    var productUrl := Or(Get(rec, "product_url"), Get(rec, "url"));
    var id :- IdBase(title, category, productUrl, Get(rec, "source_url"));
    Success(Product(
      idBase := id,
      title := title,
      name := Or(Get(rec, "name"), title),
      priceCurrent := CleanPrice(Get(rec, "price_current")),
      priceOriginal := CleanPrice(Get(rec, "price_original")),
      rating := CleanRating(Get(rec, "rating"), words),
      availability := StandardiseAvailability(Get(rec, "availability"), labels),
      imageUrl := Get(rec, "image_url"),
      url := Get(rec, "url"),
      productUrl := productUrl,
      sourceUrl := Get(rec, "source_url"),
      category := Or(category, Text("unknown")),
      currency := Or(Get(rec, "currency"), currency),
      reviewCount := CleanReviewCount(Get(rec, "review_count")),
      description := Get(rec, "description")))
  }

  /** The values of a sequence of outcomes, or the first error among them:
      Python building a list while any step may raise. */
  function Collect<T>(outcomes: seq<Result<T, Error>>): (r: Result<seq<T>, Error>)
    ensures r.Success? <==> forall i | 0 <= i < |outcomes| :: outcomes[i].Success?
    ensures r.Success? ==> |r.value| == |outcomes| && forall i | 0 <= i < |outcomes| :: outcomes[i] == Success(r.value[i])
    ensures r.Failure? ==> exists i | 0 <= i < |outcomes| :: outcomes[i] == Failure(r.error)
  {
    if |outcomes| == 0 then Success([])
    else
      var rest := Collect(outcomes[1..]);
      assert forall i | 1 <= i < |outcomes| :: outcomes[1..][i - 1] == outcomes[i];
      if outcomes[0].Failure? then Failure(outcomes[0].error)
      else if rest.Failure? then Failure(rest.error)
      else
        var out := [outcomes[0].value] + rest.value;
        assert forall i | 1 <= i < |outcomes| :: out[i] == rest.value[i - 1];
        Success(out)
  }

  /** One row of `clean_products`: the record cleaned with the default
      maps merged with the configured ones. */
  function CleanRow(rec: Record, currency: Raw, cleaning: Option<CleaningMaps>): (r: Result<Product, Error>)
    ensures r.Failure? ==> r.error == Raised(AttributeError)
  {
    CleanRecord(rec, currency, RatingWords(cleaning), AvailabilityLabels(cleaning))
  }

  /** `clean_products` without the data frame: one product per record, in
      order, each the record's cleaned row; the first row that raises
      makes the whole call raise. */
  function CleanProducts(records: seq<Record>, currency: Raw, cleaning: Option<CleaningMaps>)
    : (r: Result<seq<Product>, Error>)
    ensures |records| == 0 ==> r == Success([])
    ensures r.Success? ==> |r.value| == |records|
    ensures r.Success? ==> forall i | 0 <= i < |records| :: CleanRow(records[i], currency, cleaning) == Success(r.value[i])
    ensures r.Success? <==> forall i | 0 <= i < |records| :: CleanRow(records[i], currency, cleaning).Success?
    ensures r.Failure? ==> exists i | 0 <= i < |records| :: CleanRow(records[i], currency, cleaning) == Failure(r.error)
    ensures r.Failure? ==> r.error == Raised(AttributeError)
  {
    Collect(Rows(records, currency, cleaning))
  }

  /** Every record's cleaned row, in order. */
  function Rows(records: seq<Record>, currency: Raw, cleaning: Option<CleaningMaps>)
    : (r: seq<Result<Product, Error>>)
    ensures |r| == |records|
    ensures forall i | 0 <= i < |records| :: r[i] == CleanRow(records[i], currency, cleaning)
  {
    seq(|records|, i requires 0 <= i < |records| => CleanRow(records[i], currency, cleaning))
  }
}
