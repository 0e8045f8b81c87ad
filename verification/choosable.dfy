/** The choosable endpoint of web/rest/choosable.py: the serializer's
    `get_meta` and `get_description`, and the language gate of the list view.

    The translation `obj.__(field, lang)` is a parameter, and the allowed
    `LANGUAGE_CODES` are a set given by the caller. */
module ChoosableRest {
  import opened Wrappers

  const PreconditionFailedStatus: int := 412
  const OkStatus: int := 200

  /** The language every description is translated into, whatever the
      request asked for. */
  const DescriptionLanguage: string := "en"

  /** A wrapped metadata entry; only its `meta_value` is exposed. */
  datatype MetaValue<V> = MetaValue(metaValue: V)

  /** A choosable: its pk, name, colours and metadata map. */
  datatype Choosable<V> = Choosable(pk: nat, name: string, bgColor: string, fgColor: string, meta: map<string, MetaValue<V>>)

  /** A serialized choosable, with the fields `id`, `name`, `description`,
      `bg_color`, `fg_color` and `meta`. */
  datatype ChoosableRecord<V> = ChoosableRecord(id: nat, name: string, description: string, bgColor: string, fgColor: string,
                                                meta: map<string, V>)

  /** Response of the list view: 412 without a body, or the list. */
  datatype ListResponse<V> = PreconditionFailed | Listed(records: seq<ChoosableRecord<V>>)
  {
    function Status(): int
    {
      if PreconditionFailed? then PreconditionFailedStatus else OkStatus
    }
  }

  /** `obj.__(field, lang)`, keyed by the choosable's pk. */
  type Translator = (nat, string, string) -> string

  /** The request's `lang` is one of the configured codes; a missing
      parameter never is. */
  predicate LanguageAccepted(languageCodes: set<string>, lang: Option<string>)
  {
    lang.Some? && lang.value in languageCodes
  }

  /** `rec` is the serialization of `c`. */
  ghost predicate Serializes<V>(rec: ChoosableRecord<V>, c: Choosable<V>, translate: Translator)
  {
    && rec.id == c.pk
    && rec.name == c.name
    && rec.bgColor == c.bgColor
    && rec.fgColor == c.fgColor
    && rec.description == translate(c.pk, "description", DescriptionLanguage)
    && rec.meta.Keys == c.meta.Keys
    && forall k | k in rec.meta :: rec.meta[k] == c.meta[k].metaValue
  }

  /** `get_meta`: every entry is replaced by its `meta_value`, key by key;
      the key set stays as it is. */
  method GetMeta<V(==)>(meta: map<string, MetaValue<V>>) returns (unwrapped: map<string, V>)
    ensures unwrapped.Keys == meta.Keys
    ensures forall k | k in unwrapped :: unwrapped[k] == meta[k].metaValue
  {
    unwrapped := map[];
    var pending := meta.Keys;
    while pending != {}
      invariant pending <= meta.Keys
      invariant unwrapped.Keys == meta.Keys - pending
      invariant forall k | k in unwrapped :: unwrapped[k] == meta[k].metaValue
      decreases pending
    {
      var k :| k in pending;
      unwrapped := unwrapped[k := meta[k].metaValue];
      pending := pending - {k};
    }
  }

  /** The choosable serializer: the model fields as stored, the description
      in the fixed language, the unwrapped metadata. */
  method Serialize<V(==)>(c: Choosable<V>, translate: Translator) returns (rec: ChoosableRecord<V>)
    ensures Serializes(rec, c, translate)
  {
    var meta := GetMeta(c.meta);
    rec := ChoosableRecord(c.pk, c.name, translate(c.pk, "description", DescriptionLanguage), c.bgColor, c.fgColor, meta);
  }

  /** The list view: 412 unless `lang` is a configured code; otherwise every
      choosable serialized in order. The accepted `lang` does not reach the
      serializer. */
  method List<V(==)>(languageCodes: set<string>, lang: Option<string>, choosables: seq<Choosable<V>>, translate: Translator)
    returns (response: ListResponse<V>)
    ensures response.Status() == PreconditionFailedStatus <==> !LanguageAccepted(languageCodes, lang)
    ensures response.Listed? ==>
      |response.records| == |choosables|
      && forall i | 0 <= i < |choosables| :: Serializes(response.records[i], choosables[i], translate)
  {
    if lang.None? || lang.value !in languageCodes {
      return PreconditionFailed;
    }
    var records: seq<ChoosableRecord<V>> := [];
    var i := 0;
    while i < |choosables|
      invariant 0 <= i <= |choosables|
      invariant |records| == i
      invariant forall j | 0 <= j < i :: Serializes(records[j], choosables[j], translate)
    {
      var rec := Serialize(choosables[i], translate);
      records := records + [rec];
      i := i + 1;
    }
    response := Listed(records);
  }
}
