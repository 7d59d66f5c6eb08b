/** The configuration loader on the documents of its unit tests. */
module ConfigExamples {
  import opened Base
  import opened OrderedMaps
  import opened JsonValues
  import opened Errors
  import opened Config

  /** The `fields` entry of the test documents: one field, `name`. */
  function NameField(): OrderedMap<Json> {
    [("name", Obj([("selector", Str(".name"))]))]
  }

  /** The parsing section both test documents share. */
  function ParsingSection(): Json {
    Obj([("product_container", Str("div.item")), ("fields", Obj(NameField()))])
  }

  /** The test's minimal document. */
  function MinimalDocument(): Json {
    Obj([("site_name", Str("test")),
         ("start_urls", Arr([Str("http://example.com")])),
         ("parsing", ParsingSection())])
  }

  lemma ParsingOfMinimal(f: OrderedMap<Json>)
    requires f == MinimalDocument().fields
    ensures Lookup(f, "parsing", Null) == ParsingSection()
  {
    assert f[0].0 == "site_name" && f[1].0 == "start_urls" && f[2].0 == "parsing";
  }

  lemma SectionParts(pf: OrderedMap<Json>)
    requires pf == ParsingSection().fields
    ensures Lookup(pf, "product_container", Null) == Str("div.item")
    ensures Lookup(pf, "fields", Null) == Obj(NameField())
  {
    assert pf[0].0 == "product_container" && pf[1].0 == "fields";
  }

  lemma NameFieldIsSpec(items: OrderedMap<Json>)
    requires items == NameField()
    ensures AllFieldSpecs(items)
    ensures HasKey(items, "name")
  {
    assert items[0].1.fields[0].0 == "selector";
    assert items[0].0 == "name";
  }

  /** The parsing section loads, with its container and `name` field. */
  lemma ParsingSectionLoads(f: OrderedMap<Json>)
    requires f == MinimalDocument().fields
    ensures LoadParsing(f).Success?
    ensures LoadParsing(f).value.productContainer == Str("div.item")
    ensures HasKey(LoadParsing(f).value.fields, "name")
  {
    ParsingOfMinimal(f);
    SectionParts(ParsingSection().fields);
    NameFieldIsSpec(NameField());
    assert ParsingAcceptable(f);
  }

  /** A non-empty dict is its own document. */
  lemma NonEmptyDocument(doc: Json)
    requires doc.Obj? && |doc.fields| > 0
    ensures RawDocument(doc) == doc
  {
    assert Truthy(doc);
  }

  /** A minimal document loads, keeping the site name, the container and
      the `name` field. */
  lemma MinimalConfigLoads(doc: Json)
    requires doc == MinimalDocument()
    ensures LoadConfig(doc).Success?
    ensures LoadConfig(doc).value.siteName == Str("test")
    ensures LoadConfig(doc).value.parsing.productContainer == Str("div.item")
    ensures HasKey(LoadConfig(doc).value.parsing.fields, "name")
    ensures LoadConfig(doc).value.pagination.None?
  {
    var f := doc.fields;
    MinimalOptionalSections(f);
    MinimalRequiredKeys(f);
    ParsingSectionLoads(f);
    NonEmptyDocument(doc);
    assert Acceptable(doc);
  }

  /** The minimal document has no `request`, `pagination` or `cleaning`. */
  lemma MinimalOptionalSections(f: OrderedMap<Json>)
    requires f == MinimalDocument().fields
    ensures RequestSection(f) == EmptyObj && RequestAcceptable(EmptyObj)
    ensures PaginationAcceptable(f) && Lookup(f, "pagination", Null) == Null
    ensures CleaningSection(f) == EmptyObj
  {
    assert f[0].0 == "site_name" && f[1].0 == "start_urls" && f[2].0 == "parsing";
    assert !HasKey(f, "request") && !HasKey(f, "pagination") && !HasKey(f, "cleaning");
  }

  lemma MinimalRequiredKeys(f: OrderedMap<Json>)
    requires f == MinimalDocument().fields
    ensures Lookup(f, "site_name", Null) == Str("test")
    ensures Lookup(f, "start_urls", Null) == Arr([Str("http://example.com")])
  {
    assert f[0].0 == "site_name" && f[1].0 == "start_urls";
  }

  /** Without `site_name` the document is rejected with a `ConfigError`
      naming that key. */
  lemma MissingSiteNameRejected(doc: Json)
    requires doc == Obj([("start_urls", Arr([Str("http://example.com")])),
                         ("parsing", ParsingSection())])
    ensures LoadConfig(doc) == Failure(MissingKey("site_name"))
    ensures LoadConfig(doc).error.IsConfigError()
  {
    assert !HasKey(doc.fields, "site_name");
  }

  /** A document whose only defect is a missing `parsing` section is
      rejected with a `ConfigError` naming `parsing`. */
  lemma MissingParsingRejected(doc: Json)
    requires doc == Obj([("site_name", Str("test")),
                         ("start_urls", Arr([Str("http://example.com")]))])
    ensures LoadConfig(doc) == Failure(MissingKey("parsing"))
    ensures LoadConfig(doc).error.IsConfigError()
  {
    var f := doc.fields;
    assert f[0].0 == "site_name" && f[1].0 == "start_urls";
    assert !HasKey(f, "request") && !HasKey(f, "pagination") && !HasKey(f, "cleaning") && !HasKey(f, "parsing");
    NonEmptyDocument(doc);
  }
}
