/**
 * Properties of the field walk of the Sluggable YAML driver, stated against
 * reference definitions that read the declared fields directly.
 */
module SluggableYamlProofs {
  import opened Wrappers
  import opened SluggableYaml

  /** The names of the fields tagged `sluggable`, in declaration order. */
  function SluggableNames(fs: seq<(string, FieldMapping)>): (r: seq<string>)
    decreases |fs|
  {
    if |fs| == 0 then []
    else (if Classify(fs[0].1).Sluggable? then [fs[0].0] else []) + SluggableNames(fs[1..])
  }

  /** How many fields are marked as slug storage. */
  function SlugCount(fs: seq<(string, FieldMapping)>): (r: nat)
    decreases |fs|
  {
    if |fs| == 0 then 0
    else (if Classify(fs[0].1).SlugStorage? then 1 else 0) + SlugCount(fs[1..])
  }

  /** Every field tagged sluggable or slug storage has a valid type. */
  predicate TaggedFieldsValid(meta: EntityMeta, fs: seq<(string, FieldMapping)>)
  {
    forall k :: 0 <= k < |fs| && !Classify(fs[k].1).Ignored? ==> IsValidField(meta, fs[k].0)
  }

  /** The declared fields that have a `gedmo` entry, in declaration order. */
  function WithGedmo(fs: seq<(string, FieldMapping)>): (r: seq<(string, FieldMapping)>)
    decreases |fs|
  {
    if |fs| == 0 then []
    else (if fs[0].1.gedmo.Some? then [fs[0]] else []) + WithGedmo(fs[1..])
  }

  /** The walk succeeds exactly when every tagged field has a valid type and, counting
      a slug field already in the configuration, there is at most one slug field. */
  lemma {:induction false} WalkSucceeds(meta: EntityMeta, cfg: Config, fs: seq<(string, FieldMapping)>)
    ensures Walk(meta, cfg, fs).Success? <==>
            TaggedFieldsValid(meta, fs) && SlugCount(fs) + (if cfg.slug.Some? then 1 else 0) <= 1
    decreases |fs|
  {
    if |fs| > 0 {
      var rest := fs[1..];
      assert TaggedFieldsValid(meta, fs) <==>
             (!Classify(fs[0].1).Ignored? ==> IsValidField(meta, fs[0].0)) && TaggedFieldsValid(meta, rest)
      by {
        if TaggedFieldsValid(meta, fs) {
          forall k | 0 <= k < |rest| && !Classify(rest[k].1).Ignored?
            ensures IsValidField(meta, rest[k].0)
          {
            assert rest[k] == fs[k + 1];
          }
        }
        if (!Classify(fs[0].1).Ignored? ==> IsValidField(meta, fs[0].0)) && TaggedFieldsValid(meta, rest) {
          forall k | 0 <= k < |fs| && !Classify(fs[k].1).Ignored?
            ensures IsValidField(meta, fs[k].0)
          {
            if k > 0 { assert fs[k] == rest[k - 1]; }
          }
        }
      }
      match Step(meta, cfg, fs[0].0, fs[0].1)
      case Failure(_) =>
      case Success(c) =>
        WalkSucceeds(meta, c, rest);
    }
  }

  /** On success the sluggable field list is the old list followed by the names of the
      fields tagged `sluggable`, in declaration order, without de-duplication; the key is
      set afterwards exactly when it was set before or some field was appended. */
  lemma {:induction false} WalkFields(meta: EntityMeta, cfg: Config, fs: seq<(string, FieldMapping)>)
    requires Walk(meta, cfg, fs).Success?
    ensures FieldList(Walk(meta, cfg, fs).value) == FieldList(cfg) + SluggableNames(fs)
    ensures Walk(meta, cfg, fs).value.fields.Some? <==> cfg.fields.Some? || SluggableNames(fs) != []
    decreases |fs|
  {
    if |fs| > 0 {
      var c := Step(meta, cfg, fs[0].0, fs[0].1).value;
      WalkFields(meta, c, fs[1..]);
      if Classify(fs[0].1).Sluggable? {
        assert FieldList(c) == FieldList(cfg) + [fs[0].0];
      }
    }
  }

  /** On success the slug key is set afterwards exactly when it was set before or some
      field is marked as slug storage. */
  lemma {:induction false} WalkSlugSet(meta: EntityMeta, cfg: Config, fs: seq<(string, FieldMapping)>)
    requires Walk(meta, cfg, fs).Success?
    ensures Walk(meta, cfg, fs).value.slug.Some? <==> cfg.slug.Some? || SlugCount(fs) > 0
    decreases |fs|
  {
    if |fs| > 0 {
      var c := Step(meta, cfg, fs[0].0, fs[0].1).value;
      WalkSlugSet(meta, c, fs[1..]);
    }
  }

  /** A walk over fields none of which is marked as slug storage leaves the slug field
      and its four options as they were. */
  lemma {:induction false} WalkWithoutSlugField(meta: EntityMeta, cfg: Config, fs: seq<(string, FieldMapping)>)
    requires Walk(meta, cfg, fs).Success?
    requires SlugCount(fs) == 0
    ensures var c := Walk(meta, cfg, fs).value;
            c.slug == cfg.slug && c.style == cfg.style && c.updatable == cfg.updatable
            && c.unique == cfg.unique && c.separator == cfg.separator
    decreases |fs|
  {
    if |fs| > 0 {
      var c := Step(meta, cfg, fs[0].0, fs[0].1).value;
      WalkWithoutSlugField(meta, c, fs[1..]);
    }
  }

  /** When the walk succeeds, a field marked as slug storage is the one slug field: no
      slug was set beforehand, the slug key names it, and each of its options takes the
      given value or, independently, its own default. */
  lemma {:induction false} WalkSlugApplied(meta: EntityMeta, cfg: Config, fs: seq<(string, FieldMapping)>, k: nat)
    requires Walk(meta, cfg, fs).Success?
    requires k < |fs| && Classify(fs[k].1).SlugStorage?
    ensures var c, o := Walk(meta, cfg, fs).value, Classify(fs[k].1).options;
            && cfg.slug.None?
            && c.slug == Some(fs[k].0)
            && c.style == Some(o.style.GetOr("default"))
            && c.updatable == Some(o.updatable.GetOr(true))
            && c.unique == Some(o.unique.GetOr(true))
            && c.separator == Some(o.separator.GetOr("-"))
    decreases |fs|
  {
    var c := Step(meta, cfg, fs[0].0, fs[0].1).value;
    if k == 0 {
      WalkSucceeds(meta, c, fs[1..]);
      WalkWithoutSlugField(meta, c, fs[1..]);
    } else {
      WalkSlugApplied(meta, c, fs[1..], k - 1);
    }
  }

  /** Walking two runs of fields is walking the first, then the second from where the
      first ended; an error in the first run is final (later fields are not looked at). */
  lemma {:induction false} WalkAppend(meta: EntityMeta, cfg: Config, a: seq<(string, FieldMapping)>, b: seq<(string, FieldMapping)>)
    ensures Walk(meta, cfg, a).Failure? ==> Walk(meta, cfg, a + b) == Walk(meta, cfg, a)
    ensures Walk(meta, cfg, a).Success? ==> Walk(meta, cfg, a + b) == Walk(meta, Walk(meta, cfg, a).value, b)
    decreases |a|
  {
    if |a| == 0 {
      assert a + b == b;
    } else {
      assert (a + b)[0] == a[0];
      assert (a + b)[1..] == a[1..] + b;
      match Step(meta, cfg, a[0].0, a[0].1)
      case Failure(_) =>
      case Success(c) =>
        WalkAppend(meta, c, a[1..], b);
    }
  }

  /** A failed walk failed at one field: the fields before it were all accepted, and the
      error is the one that field raises against the configuration they produced. */
  lemma {:induction false} WalkFirstError(meta: EntityMeta, cfg: Config, fs: seq<(string, FieldMapping)>)
    returns (k: nat)
    requires Walk(meta, cfg, fs).Failure?
    ensures k < |fs|
    ensures Walk(meta, cfg, fs[..k]).Success?
    ensures Step(meta, Walk(meta, cfg, fs[..k]).value, fs[k].0, fs[k].1) == Walk(meta, cfg, fs)
    decreases |fs|
  {
    assert fs[..0] == [];
    match Step(meta, cfg, fs[0].0, fs[0].1)
    case Failure(_) =>
      k := 0;
    case Success(c) =>
      var j := WalkFirstError(meta, c, fs[1..]);
      k := j + 1;
      var pre := fs[..k];
      assert pre[0] == fs[0];
      assert pre[1..] == fs[1..][..j];
      assert fs[k] == fs[1..][j];
  }

  /** Fields without a `gedmo` entry do not matter: the walk over all declared fields
      is the walk over those that have one. */
  lemma {:induction false} IgnoredFieldsDropped(meta: EntityMeta, cfg: Config, fs: seq<(string, FieldMapping)>)
    ensures Walk(meta, cfg, fs) == Walk(meta, cfg, WithGedmo(fs))
    decreases |fs|
  {
    if |fs| > 0 {
      var c := Step(meta, cfg, fs[0].0, fs[0].1);
      IgnoredFieldsDropped(meta, cfg, fs[1..]);
      if c.Success? {
        IgnoredFieldsDropped(meta, c.value, fs[1..]);
      }
      var w := WithGedmo(fs);
      if fs[0].1.gedmo.Some? {
        assert |w| > 0 && w[0] == fs[0];
        assert w[1..] == WithGedmo(fs[1..]);
      } else {
        assert w == WithGedmo(fs[1..]);
      }
    }
  }

  /** Reading a fresh configuration and then validating it fails exactly when the
      entity's fields declare a slug field but no sluggable field. */
  lemma ValidateAfterRead(meta: EntityMeta, doc: Document)
    requires ReadSpec(meta, doc, EmptyConfig).Success?
    ensures ValidateFullMetadata(meta, ReadSpec(meta, doc, EmptyConfig).value).Fail? <==>
            meta.name in doc && doc[meta.name].fields.Some?
            && SluggableNames(doc[meta.name].fields.value) == []
            && SlugCount(doc[meta.name].fields.value) == 1
  {
    if meta.name in doc && doc[meta.name].fields.Some? {
      var fs := doc[meta.name].fields.value;
      WalkSucceeds(meta, EmptyConfig, fs);
      WalkFields(meta, EmptyConfig, fs);
      WalkSlugSet(meta, EmptyConfig, fs);
      if SlugCount(fs) == 0 {
        WalkWithoutSlugField(meta, EmptyConfig, fs);
      }
    }
  }

  /** A title tagged sluggable and a slug field with only a separator option. */
  lemma TitleAndSlugExample()
    ensures var meta := EntityMeta("Article", map["title" := "string", "slug" := "string"]);
            var doc := map["Article" := EntityMapping(Some([
                ("title", FieldMapping(Some(GedmoMapping(["sluggable"], None)))),
                ("slug", FieldMapping(Some(GedmoMapping([], Some(SlugOptions(None, None, None, Some("_")))))))]))];
            ReadSpec(meta, doc, EmptyConfig)
            == Success(Config(Some(["title"]), Some("slug"), Some("default"), Some(true), Some(true), Some("_")))
  {
    var meta := EntityMeta("Article", map["title" := "string", "slug" := "string"]);
    var title := ("title", FieldMapping(Some(GedmoMapping(["sluggable"], None))));
    var slug := ("slug", FieldMapping(Some(GedmoMapping([], Some(SlugOptions(None, None, None, Some("_")))))));
    var fs := [title, slug];
    assert "sluggable" in ["sluggable"];
    assert "sluggable" !in [];
    var c1 := Config(Some(["title"]), None, None, None, None, None);
    assert IsValidField(meta, "title") && IsValidField(meta, "slug");
    assert Classify(title.1) == Sluggable;
    assert FieldList(EmptyConfig) + ["title"] == ["title"];
    assert Step(meta, EmptyConfig, title.0, title.1) == Success(c1);
    var c2 := Config(Some(["title"]), Some("slug"), Some("default"), Some(true), Some(true), Some("_"));
    assert Step(meta, c1, slug.0, slug.1) == Success(c2);
    assert fs[1..] == [slug];
    assert Walk(meta, c1, [slug]) == Success(c2);
    assert Walk(meta, EmptyConfig, fs) == Success(c2);
  }
}
