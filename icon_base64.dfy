/**
 * Validator AM0004: the addon metadata's `icon` must be base64 text that
 * decodes to a PNG image. Base64 decoding (Go's base64.StdEncoding, RFC 4648
 * section 4 with padding) and PNG decoding are library code and enter the
 * model as the functions of a Codecs value.
 */
module IconBase64 {
  import opened Types
  import Registry

  /** The two library decoders the validator consults. */
  datatype Codecs = Codecs(
    decodeBase64: string -> Option<seq<byte>>,
    decodesAsPng: seq<byte> -> bool)

  /** The tail every AM0004 message shares, before the addon ID. */
  const UnderMetadataOf := " under the addon metadata of "

  function IconNotFoundMessage(id: string): string
  {
    "`icon` not found" + UnderMetadataOf + id
  }

  function ImproperBase64Message(id: string): string
  {
    "`icon` found to be improperly base64 populated" + UnderMetadataOf + id
  }

  function NonPngMessage(id: string): string
  {
    "`icon`'s base64 value found to correspond" + " to a non-png data" + UnderMetadataOf + id
  }

  /** ValidateIconBase64: the three-branch check on the icon; it never reports a hard error. */
  function ValidateIconBase64(codecs: Codecs, metabundle: MetaBundle): (r: RunResult)
    ensures r.err == None
    ensures r.passed <==>
      var icon := metabundle.addonMeta.icon;
      icon != "" && codecs.decodeBase64(icon).Some? && codecs.decodesAsPng(codecs.decodeBase64(icon).value)
    ensures metabundle.addonMeta.icon == "" ==> r.message == IconNotFoundMessage(metabundle.addonMeta.id)
    ensures metabundle.addonMeta.icon != "" && codecs.decodeBase64(metabundle.addonMeta.icon).None? ==>
      r.message == ImproperBase64Message(metabundle.addonMeta.id)
    ensures metabundle.addonMeta.icon != "" && codecs.decodeBase64(metabundle.addonMeta.icon).Some? ==>
      r.message == NonPngMessage(metabundle.addonMeta.id)
  {
    var icon := metabundle.addonMeta.icon;
    var id := metabundle.addonMeta.id;
    if icon == "" then
      RunResult(false, IconNotFoundMessage(id), None)
    else
      match codecs.decodeBase64(icon)
      case None => RunResult(false, ImproperBase64Message(id), None)
      case Some(decoded) => RunResult(codecs.decodesAsPng(decoded), NonPngMessage(id), None)
  }

  /** The three messages differ, so a failing report tells which check failed. */
  lemma {:induction false} MessagesDistinguishBranches(id: string, id': string)
    ensures IconNotFoundMessage(id) != ImproperBase64Message(id')
    ensures IconNotFoundMessage(id) != NonPngMessage(id')
    ensures ImproperBase64Message(id) != NonPngMessage(id')
  {
    assert IconNotFoundMessage(id)[7] == 'n';
    assert ImproperBase64Message(id)[6] == ' ';
    assert ImproperBase64Message(id')[7] == 'f';
    assert NonPngMessage(id')[6] == '\'';
  }

  /** Every message ends with the addon ID it speaks about. */
  lemma MessageNamesAddon(codecs: Codecs, metabundle: MetaBundle)
    ensures var m := ValidateIconBase64(codecs, metabundle).message;
      var id := metabundle.addonMeta.id;
      |m| >= |id| && m[|m| - |id|..] == id
  {
  }

  /** The verdict depends only on the icon and the message only on the verdict's branch and the addon ID. */
  lemma OnlyIconAndIdMatter(codecs: Codecs, a: MetaBundle, b: MetaBundle)
    requires a.addonMeta.icon == b.addonMeta.icon && a.addonMeta.id == b.addonMeta.id
    ensures ValidateIconBase64(codecs, a) == ValidateIconBase64(codecs, b)
  {
  }

  /** The AM0004 descriptor: its code, name and description, running ValidateIconBase64. */
  function AM0004(codecs: Codecs): (v: Validator<Runner>)
    ensures v.code == "AM0004" && v.name == "icon_base64"
    ensures v.description == "Ensure that `icon` in Addon metadata is rightfully base64 encoded"
    ensures forall metabundle :: v.runner(metabundle) == ValidateIconBase64(codecs, metabundle)
  {
    Validator(
      "AM0004",
      "icon_base64",
      "Ensure that `icon` in Addon metadata is rightfully base64 encoded",
      metabundle => ValidateIconBase64(codecs, metabundle))
  }

  /** Registering AM0004 in an empty table succeeds and leaves exactly it there. */
  lemma RegisterInEmptyTable(codecs: Codecs)
    ensures Registry.Insert(map[], AM0004(codecs)) == Registry.Inserted(map["AM0004" := AM0004(codecs)])
  {
  }

  /**
   * The package's init: register AM0004 in the registry. In a registry that
   * holds nothing else it goes in, and looking its code up finds it.
   */
  method Init(registry: Registry.DefaultRegistry<Runner>, codecs: Codecs) returns (outcome: Registry.AddOutcome)
    modifies registry
    ensures old(registry.Valid()) ==> registry.Valid()
    ensures "AM0004" in old(registry.data) ==>
      outcome == Registry.Panic(Registry.PanicMessage("AM0004")) && registry.data == old(registry.data)
    ensures "AM0004" !in old(registry.data) ==>
      outcome == Registry.Added && registry.data == old(registry.data)["AM0004" := AM0004(codecs)]
    ensures old(registry.data) == map[] ==> registry.Get("AM0004") == Some(AM0004(codecs)) && registry.Len() == 1
  {
    outcome := registry.Add(AM0004(codecs));
  }
}
