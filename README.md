# Sluggable YAML mapping driver

A model of the YAML mapping driver of the Sluggable extension for Doctrine (the
`Gedmo\Sluggable\Mapping\Driver\Yaml` class). The driver reads one entity's mapping
document. It finds the fields whose text goes into the slug (tagged `sluggable`) and the
one field that stores the slug (tagged `slug`, or given a `slug` key holding options). It
checks their declared types and fills in the extension's configuration record.

- `wrappers.dfy`: `Option`, `Result` and `Outcome`. These replace PHP's unset keys and exceptions.
- `sluggable_yaml.dfy` (module `SluggableYaml`): the data model and the operations.
  - The parsed document is a map from entity name to the entity's `fields` list. That list is a sequence of (name, mapping) pairs in declaration order.
  - The host metadata is the entity name plus a map from field name to declared type.
  - The configuration is a record with one `Option` per key: `fields`, `slug`, `style`, `updatable`, `unique`, `separator`.
  - `ReadExtendedMetadata` is a method whose loop mirrors the driver's `foreach`. Its result is proved equal to `ReadSpec`, a left fold (`Walk`) of the per-field `Step`.
  - `IsValidField` and `ValidateFullMetadata` are functions.
- `sluggable_yaml_proofs.dfy` (module `SluggableYamlProofs`): properties of the walk. They are stated against reference definitions that read the declared fields directly: `SluggableNames`, `SlugCount`, `TaggedFieldsValid` and `WithGedmo`.
- `sluggable_messages.dfy` (module `SluggableMessages`): the error texts, with the defect described under Findings.

The `foreach` updates a configuration array that the caller passes by reference. The
model passes the configuration in as a value and returns the updated one. When an error
is raised, only the error is returned: callers discard the partly filled array.

## Model

| member | source | states |
|---|---|---|
| SluggableYaml.IsValidField | lib/Gedmo/Sluggable/Mapping/Driver/Yaml.php:106-109 | a field is valid iff the metadata declares it with type `string`, the single member of the valid-type list (lines 35-37) |
| SluggableYaml.ValidateFullMetadata | lib/Gedmo/Sluggable/Mapping/Driver/Yaml.php:42-47 | fails, with the no-fields error naming the entity, iff the configuration has some key set but no `fields` key |
| SluggableYaml.Classify | lib/Gedmo/Sluggable/Mapping/Driver/Yaml.php:58-65 | a field is sluggable iff its `gedmo` entry holds the tag `sluggable`; it stores the slug iff it is not sluggable and has a `slug` key or the tag `slug`, so `sluggable` wins; a slug field's options are the value under its `slug` key, and the bare `[slug]` form has none |
| SluggableYaml.WithSlug | lib/Gedmo/Sluggable/Mapping/Driver/Yaml.php:73-84 | accepting a slug field sets `slug` to its name and each of `style`, `updatable`, `unique`, `separator` to the given option or, independently, to `"default"`, `true`, `true`, `"-"`; the sluggable field list is untouched |
| SluggableYaml.Step | lib/Gedmo/Sluggable/Mapping/Driver/Yaml.php:58-85 | an untagged field changes nothing; a tagged field fails iff its type is invalid or it is a second slug field; an invalid type is reported, with its branch's error, before the duplicate; an accepted sluggable field is appended and nothing else changes; an accepted slug field is accepted only when no slug was set, and then sets the slug and its options |
| SluggableYaml.ReadExtendedMetadata | lib/Gedmo/Sluggable/Mapping/Driver/Yaml.php:52-89 | the loop's result equals the fold of the per-field step over the declared fields; without an entry for the entity or without a `fields` key, the configuration is returned unchanged and there is no error |
| SluggableYamlProofs.WalkSucceeds | lib/Gedmo/Sluggable/Mapping/Driver/Yaml.php:57-85 | the walk succeeds iff every tagged field has a valid type and there is at most one slug field, counting one already in the configuration |
| SluggableYamlProofs.WalkFields | lib/Gedmo/Sluggable/Mapping/Driver/Yaml.php:57-63 | on success, the field list is the old list followed by the sluggable-tagged names in declaration order, with no de-duplication; the key is set iff it was set before or a name was appended |
| SluggableYamlProofs.WalkSlugSet | lib/Gedmo/Sluggable/Mapping/Driver/Yaml.php:64-73 | on success, the slug key is set iff it was set before or some field is marked as slug storage |
| SluggableYamlProofs.WalkWithoutSlugField | lib/Gedmo/Sluggable/Mapping/Driver/Yaml.php:64-84 | when no field is marked as slug storage, `slug`, `style`, `updatable`, `unique` and `separator` are left as they were |
| SluggableYamlProofs.WalkSlugApplied | lib/Gedmo/Sluggable/Mapping/Driver/Yaml.php:65-84 | on success, a slug-storage field found no slug set; afterwards `slug` names it, and `style`, `updatable`, `unique` and `separator` hold the given options or, independently, `"default"`, `true`, `true` and `"-"` |
| SluggableYamlProofs.WalkAppend | lib/Gedmo/Sluggable/Mapping/Driver/Yaml.php:57-87 | walking two runs of fields is walking the first, then the second from its result; an error in the first run is final, so later fields are never looked at |
| SluggableYamlProofs.WalkFirstError | lib/Gedmo/Sluggable/Mapping/Driver/Yaml.php:57-87 | a failed walk failed at one field: every earlier field was accepted, and the error is the one that field raises against the configuration they produced |
| SluggableYamlProofs.IgnoredFieldsDropped | lib/Gedmo/Sluggable/Mapping/Driver/Yaml.php:58 | fields without a `gedmo` entry do not matter: the walk over all fields equals the walk over those that have one |
| SluggableYamlProofs.ValidateAfterRead | lib/Gedmo/Sluggable/Mapping/Driver/Yaml.php:42-47 | after a successful read into a fresh configuration, validation fails iff the entity declares a slug field but no sluggable field |
| SluggableYamlProofs.TitleAndSlugExample | lib/Gedmo/Sluggable/Mapping/Driver/Yaml.php:57-85 | a sluggable `title` and a `slug` field whose only option is separator `_` give fields `[title]`, slug `slug`, separator `_`, and the other options at their defaults |
| SluggableMessages.AsWrittenIgnoresNewField | lib/Gedmo/Sluggable/Mapping/Driver/Yaml.php:70 | for every existing field, entity and pair of new field names, the duplicate-slug message as written is the same: it does not depend on the new field |
| SluggableMessages.DuplicateMessageLosesField | lib/Gedmo/Sluggable/Mapping/Driver/Yaml.php:70 | two different duplicate-slug errors produce the same message as written |
| SluggableMessages.Message | lib/Gedmo/Sluggable/Mapping/Driver/Yaml.php:45-70 | the corrected duplicate-slug message contains the names of both clashing fields |
| SluggableMessages.DuplicateNamesBoth | lib/Gedmo/Sluggable/Mapping/Driver/Yaml.php:70 | the corrected duplicate-slug text contains the new field's name and the existing field's name |

## Left out

- Loading the YAML file (`_loadMappingFile`, lines 94-97) is left out. The model starts from the parsed document, because the Symfony YAML parser is not part of this model.
- Locating the mapping file (`_findMappingFile`, the `.dcm.yml` extension, lines 28 and 53) is left out. That lookup belongs to the parent `File` driver, which is not part of this model.
- Doctrine's `ClassMetadataInfo` is not part of this model. It is abstracted as the entity name plus a map from field name to declared type. A field with no declared type is treated as invalid. This assumes `getTypeOfField` returns null for such a field, and null is not in the valid-type list.
- The `gedmo` value is modelled only in its array forms:
  - as the string values it holds (`tags`);
  - as the options under its `slug` key (`slug`), when that key is set to a non-null value.
  - A `slug` value that is a string is not modelled, along with the casts: on PHP 5.3, which this driver targets, `isset($slug['style'])` on a non-empty string reads its first character, so `slug: abc` would set `style` and `separator` to `"a"`. A `slug` value that is any other non-array scalar gives no options, so all defaults apply.
  - A `gedmo` value that is a bare scalar is not modelled.
- PHP's loose comparison in `in_array` is not modelled. For example, an integer `0` in a tag list would match `'sluggable'`. Tags are modelled as strings compared exactly.
- The `(string)` and `(bool)` casts on the YAML option values are left out. Options are modelled as values that already have the right type.
- A configuration key that is present but holds null is not modelled. Such a key makes the PHP array non-empty but is not `isset`. In the model, an absent key and a null key are the same (`None`).
- After an error, PHP leaves the configuration partly filled. The model returns only the error, because callers discard the configuration.
- PHP notices are assumed non-fatal and unobserved. Three reads raise one: the document entry of an entity it does not mention (line 54), the `slug` key of the bare `[slug]` form (line 65) and the unassigned `$slugField` (line 70). The model treats each as reading null; under an error handler that turns notices into exceptions, the first two would fail instead of succeeding and the third would raise a different error.
- Error messages are modelled only as the text the driver builds. The exception class is not modelled.

## Findings

| source | as written | input that shows it | evidently intended | confidence | as-written member | corrected member |
|---|---|---|---|---|---|---|
| lib/Gedmo/Sluggable/Mapping/Driver/Yaml.php:70 | the duplicate-slug message interpolates `$slugField`, which is never assigned, so it renders as an empty string | an entity whose fields `slug` and then `permalink` are both marked as slug storage: the message reads `There cannot be two slug fields: [] and [slug], in class - Article.`, and the same text results if the second field is `url` | the message names the new field (`$field`) as well as the existing one | high; not executed | SluggableMessages.AsWrittenIgnoresNewField | SluggableMessages.DuplicateNamesBoth |
