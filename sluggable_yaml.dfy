/**
 * The Sluggable extension's YAML mapping driver: it reads, from an already parsed
 * mapping document, which fields of an entity are sluggable (their text goes into the
 * slug) and which single field stores the slug, together with the slug's options.
 */
module SluggableYaml {
  import opened Wrappers

  // ---------------------------------------------------------------------------
  // Inputs: the entity's metadata and the parsed mapping document
  // ---------------------------------------------------------------------------

  /** What the driver reads from the host's class metadata: the entity's class name
      and the declared type of each mapped field. */
  datatype EntityMeta = EntityMeta(name: string, fieldTypes: map<string, string>)

  /** The options that may be nested under a `slug` key; each is independently optional. */
  datatype SlugOptions = SlugOptions(
    style: Option<string>,
    updatable: Option<bool>,
    unique: Option<bool>,
    separator: Option<string>)

  /** The value of a field's `gedmo` entry: `tags` are the string values it holds (the
      list form `[sluggable]` or `[slug]`), `slug` is the value under its `slug` key,
      when that key is set (the mapping form `{slug: {...}}`). */
  datatype GedmoMapping = GedmoMapping(tags: seq<string>, slug: Option<SlugOptions>)

  /** One field's mapping: only its `gedmo` entry matters to this driver. */
  datatype FieldMapping = FieldMapping(gedmo: Option<GedmoMapping>)

  /** One entity's mapping: its `fields` entry, field names with their mappings in
      declaration order. */
  datatype EntityMapping = EntityMapping(fields: Option<seq<(string, FieldMapping)>>)

  /** A parsed mapping document, keyed by fully-qualified entity name. */
  type Document = map<string, EntityMapping>

  // ---------------------------------------------------------------------------
  // Output: the extension's configuration for one entity
  // ---------------------------------------------------------------------------

  /** The configuration record the driver fills in; a key that is not set is None. */
  datatype Config = Config(
    fields: Option<seq<string>>,
    slug: Option<string>,
    style: Option<string>,
    updatable: Option<bool>,
    unique: Option<bool>,
    separator: Option<string>)

  /** The configuration with no key set. */
  const EmptyConfig := Config(None, None, None, None, None, None)

  /** The errors the driver raises. */
  datatype Error =
    | InvalidSluggableType(field: string, entity: string)
    | InvalidSlugType(field: string, entity: string)
    | DuplicateSlug(existing: string, field: string, entity: string)
    | NoFields(entity: string)

  /** Types a sluggable or slug field may have. */
  const ValidTypes: seq<string> := ["string"]

  const DefaultStyle := "default"
  const DefaultUpdatable := true
  const DefaultUnique := true
  const DefaultSeparator := "-"

  /** The options in force when a field is marked `[slug]` without a `slug` key. */
  const NoOptions := SlugOptions(None, None, None, None)

  /** The sluggable field names collected so far (none when the key is not set). */
  function FieldList(cfg: Config): (r: seq<string>)
  {
    if cfg.fields.Some? then cfg.fields.value else []
  }

  // ---------------------------------------------------------------------------
  // Operations
  // ---------------------------------------------------------------------------

  /** A field may be sluggable or store the slug only when its declared type is one
      of the valid types, that is, `string`. */
  function IsValidField(meta: EntityMeta, field: string): (r: bool)
    ensures r <==> field in meta.fieldTypes && meta.fieldTypes[field] == "string"
  {
    field in meta.fieldTypes && meta.fieldTypes[field] in ValidTypes
  }

  /** Sanity check of a finished configuration: a configuration that has any key set
      must list sluggable fields. */
  function ValidateFullMetadata(meta: EntityMeta, cfg: Config): (r: Outcome<Error>)
    ensures r.Fail? <==> cfg != EmptyConfig && cfg.fields.None?
    ensures r.Fail? ==> r.error == NoFields(meta.name)
  {
    if cfg != EmptyConfig && cfg.fields.None? then Fail(NoFields(meta.name)) else Pass
  }

  /** What a field's mapping makes of it. */
  datatype Role = Ignored | Sluggable | SlugStorage(options: SlugOptions)

  /** A field is sluggable when its `gedmo` entry holds the tag `sluggable`; otherwise
      it stores the slug when that entry has a `slug` key or holds the tag `slug`. */
  function Classify(fm: FieldMapping): (r: Role)
    ensures r.Sluggable? <==> fm.gedmo.Some? && "sluggable" in fm.gedmo.value.tags
    ensures r.SlugStorage? <==> fm.gedmo.Some? && "sluggable" !in fm.gedmo.value.tags
                                && (fm.gedmo.value.slug.Some? || "slug" in fm.gedmo.value.tags)
    ensures r.SlugStorage? && fm.gedmo.value.slug.Some? ==> r.options == fm.gedmo.value.slug.value
    ensures r.SlugStorage? && fm.gedmo.value.slug.None? ==> r.options == NoOptions
  {
    match fm.gedmo
    case None => Ignored
    case Some(g) =>
      if "sluggable" in g.tags then Sluggable
      else if g.slug.Some? then SlugStorage(g.slug.value)
      else if "slug" in g.tags then SlugStorage(NoOptions)
      else Ignored
  }

  /** The configuration after `name` is accepted as the slug field with options `o`:
      every option not given takes its own default. */
  function WithSlug(cfg: Config, name: string, o: SlugOptions): (r: Config)
    ensures r.fields == cfg.fields && r.slug == Some(name)
    ensures r.style == Some(if o.style.Some? then o.style.value else DefaultStyle)
    ensures r.updatable == Some(if o.updatable.Some? then o.updatable.value else DefaultUpdatable)
    ensures r.unique == Some(if o.unique.Some? then o.unique.value else DefaultUnique)
    ensures r.separator == Some(if o.separator.Some? then o.separator.value else DefaultSeparator)
  {
    cfg.(slug := Some(name),
         style := Some(o.style.GetOr(DefaultStyle)),
         updatable := Some(o.updatable.GetOr(DefaultUpdatable)),
         unique := Some(o.unique.GetOr(DefaultUnique)),
         separator := Some(o.separator.GetOr(DefaultSeparator)))
  }

  /** The effect of one declared field on the configuration. */
  function Step(meta: EntityMeta, cfg: Config, name: string, fm: FieldMapping): (r: Result<Config, Error>)
    // an untagged field changes nothing
    ensures Classify(fm).Ignored? ==> r == Success(cfg)
    // the field is rejected exactly when it is tagged and has a bad type, or is a
    // second slug field
    ensures r.Failure? <==> !Classify(fm).Ignored?
                            && (!IsValidField(meta, name) || (Classify(fm).SlugStorage? && cfg.slug.Some?))
    // a bad type is reported, by branch, before a duplicate slug field
    ensures r.Failure? && !IsValidField(meta, name) && Classify(fm).Sluggable? ==>
              r.error == InvalidSluggableType(name, meta.name)
    ensures r.Failure? && !IsValidField(meta, name) && Classify(fm).SlugStorage? ==>
              r.error == InvalidSlugType(name, meta.name)
    ensures r.Failure? && IsValidField(meta, name) ==>
              r.error == DuplicateSlug(cfg.slug.value, name, meta.name)
    // an accepted sluggable field is appended and nothing else changes
    ensures r.Success? && Classify(fm).Sluggable? ==>
              r.value == cfg.(fields := Some(FieldList(cfg) + [name]))
    // an accepted slug field is the first one and leaves the sluggable fields alone
    ensures r.Success? && Classify(fm).SlugStorage? ==>
              cfg.slug.None? && r.value == WithSlug(cfg, name, Classify(fm).options)
  {
    match Classify(fm)
    case Ignored => Success(cfg)
    case Sluggable =>
      if !IsValidField(meta, name) then Failure(InvalidSluggableType(name, meta.name))
      else Success(cfg.(fields := Some(FieldList(cfg) + [name])))
    case SlugStorage(o) =>
      if !IsValidField(meta, name) then Failure(InvalidSlugType(name, meta.name))
      else if cfg.slug.Some? then Failure(DuplicateSlug(cfg.slug.value, name, meta.name))
      else Success(WithSlug(cfg, name, o))
  }

  /** The walk over the declared fields, in order, stopping at the first error. */
  function Walk(meta: EntityMeta, cfg: Config, fs: seq<(string, FieldMapping)>): (r: Result<Config, Error>)
    decreases |fs|
  {
    if |fs| == 0 then Success(cfg)
    else
      match Step(meta, cfg, fs[0].0, fs[0].1)
      case Failure(e) => Failure(e)
      case Success(c) => Walk(meta, c, fs[1..])
  }

  /** What reading an entity's extended metadata does to the configuration. */
  function ReadSpec(meta: EntityMeta, doc: Document, cfg: Config): (r: Result<Config, Error>)
  {
    if meta.name in doc && doc[meta.name].fields.Some? then Walk(meta, cfg, doc[meta.name].fields.value)
    else Success(cfg)
  }

  /** Reads the entity's mapping from the document and fills in `config`, field by
      field in declaration order; returns the filled configuration or the first error. */
  method ReadExtendedMetadata(meta: EntityMeta, doc: Document, config: Config)
    returns (r: Result<Config, Error>)
    ensures r == ReadSpec(meta, doc, config)
    ensures (meta.name !in doc || doc[meta.name].fields.None?) ==> r == Success(config)
  {
    if meta.name !in doc || doc[meta.name].fields.None? {
      return Success(config);
    }
    var fs := doc[meta.name].fields.value;
    var cfg := config;
    var i := 0;
    while i < |fs|
      invariant 0 <= i <= |fs|
      invariant Walk(meta, cfg, fs[i..]) == Walk(meta, config, fs)
    {
      var (field, fieldMapping) := fs[i];
      assert fs[i..][1..] == fs[i + 1..];
      if fieldMapping.gedmo.Some? {
        var gedmo := fieldMapping.gedmo.value;
        if "sluggable" in gedmo.tags {
          if !IsValidField(meta, field) {
            return Failure(InvalidSluggableType(field, meta.name));
          }
          cfg := cfg.(fields := Some(FieldList(cfg) + [field]));
        } else if gedmo.slug.Some? || "slug" in gedmo.tags {
          var slug := gedmo.slug.GetOr(NoOptions);
          if !IsValidField(meta, field) {
            return Failure(InvalidSlugType(field, meta.name));
          }
          if cfg.slug.Some? {
            return Failure(DuplicateSlug(cfg.slug.value, field, meta.name));
          }
          cfg := cfg.(slug := Some(field));
          cfg := cfg.(style := Some(if slug.style.Some? then slug.style.value else DefaultStyle));
          cfg := cfg.(updatable := Some(if slug.updatable.Some? then slug.updatable.value else DefaultUpdatable));
          cfg := cfg.(unique := Some(if slug.unique.Some? then slug.unique.value else DefaultUnique));
          cfg := cfg.(separator := Some(if slug.separator.Some? then slug.separator.value else DefaultSeparator));
        }
      }
      i := i + 1;
    }
    assert fs[i..] == [];
    return Success(cfg);
  }
}
