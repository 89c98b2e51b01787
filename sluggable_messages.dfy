/**
 * The text of the errors the Sluggable YAML driver raises. The duplicate-slug message
 * as written interpolates a variable that is never assigned, so its first field name
 * comes out empty; `MessageAsWritten` keeps that, `Message` names the new field.
 */
module SluggableMessages {
  import opened SluggableYaml

  /** `t` occurs in `s` starting at index `i`. */
  predicate OccursAt(s: string, t: string, i: int)
  {
    0 <= i <= |s| - |t| && s[i..i + |t|] == t
  }

  /** `t` occurs in `s` as a contiguous run. */
  ghost predicate Contains(s: string, t: string)
  {
    exists i :: OccursAt(s, t, i)
  }

  /** The message of the duplicate-slug error with the given text for the new field. */
  function DuplicateText(newField: string, existing: string, entity: string): (r: string)
  {
    "There cannot be two slug fields: [" + newField + "] and [" + existing + "], in class - " + entity + "."
  }

  /** The messages as the driver builds them: the new slug field's name is lost. */
  function MessageAsWritten(e: Error): (m: string)
  {
    match e
    case NoFields(entity) =>
      "Unable to find any sluggable fields specified for Sluggable entity - " + entity
    case InvalidSluggableType(field, entity) =>
      "Cannot slug field - [" + field + "] type is not valid and must be 'string' in class - " + entity
    case InvalidSlugType(field, entity) =>
      "Cannot use field - [" + field + "] for slug storage, type is not valid and must be 'string' in class - " + entity
    case DuplicateSlug(existing, _, entity) =>
      DuplicateText("", existing, entity)
  }

  /** Two different second slug fields give the same message as written, so the message
      cannot tell which field clashed. */
  lemma DuplicateMessageLosesField()
    ensures var a := DuplicateSlug("slug", "permalink", "Article");
            var b := DuplicateSlug("slug", "url", "Article");
            a != b && MessageAsWritten(a) == MessageAsWritten(b)
  {
  }

  /** Whatever the second slug field is called, the message as written is the same. */
  lemma AsWrittenIgnoresNewField(existing: string, f1: string, f2: string, entity: string)
    ensures MessageAsWritten(DuplicateSlug(existing, f1, entity))
            == MessageAsWritten(DuplicateSlug(existing, f2, entity))
  {
  }

  /** The messages with both clashing slug fields named. */
  function Message(e: Error): (m: string)
    ensures e.DuplicateSlug? ==> Contains(m, e.field) && Contains(m, e.existing)
  {
    match e
    case DuplicateSlug(existing, field, entity) =>
      DuplicateNamesBoth(field, existing, entity);
      DuplicateText(field, existing, entity)
    case _ => MessageAsWritten(e)
  }

  /** The duplicate-slug message names both the new and the existing slug field. */
  lemma DuplicateNamesBoth(newField: string, existing: string, entity: string)
    ensures Contains(DuplicateText(newField, existing, entity), newField)
    ensures Contains(DuplicateText(newField, existing, entity), existing)
  {
    var m := DuplicateText(newField, existing, entity);
    var p := "There cannot be two slug fields: [";
    var q := p + newField + "] and [";
    assert m == p + newField + ("] and [" + existing + "], in class - " + entity + ".");
    assert OccursAt(m, newField, |p|);
    assert m == q + existing + ("], in class - " + entity + ".");
    assert OccursAt(m, existing, |q|);
  }
}
