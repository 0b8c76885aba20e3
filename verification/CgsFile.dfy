// From the text of a file to the verdict on the export it holds.

module CgsFile {
  import opened Texts
  import opened Json
  import opened JsonDecoder
  import opened CgsModel
  import opened CgsRules
  import opened CgsExport
  import opened CgsValidator
  import opened Wrappers
  import CgsHash

  /** `validate_cgs` with both allow flags off: it adds no error exactly when the document is a valid export. */
  method ValidateStrictly(p: CgsHash.Platform, x: Extras, cgs: Json, result: ValidationResult) returns (raised: bool)
    requires CgsHash.Sound(p)
    modifies result
    ensures raised <==> Raises(x, cgs)
    ensures !raised ==> old(result.errors) <= result.errors
    ensures !raised ==> (result.errors == old(result.errors) <==> ValidExport(p, RESERVED, x, cgs))
  {
    raised := ValidateCgs(p, RESERVED, x, cgs, result, false, false);
    StrictPassesIffValid(p, RESERVED, x, cgs);
  }

  /** `validate_file`, given the file's text, or None when it cannot be read. */
  method ValidateFile(p: CgsHash.Platform, x: Extras, text: Option<string>, allowLegacy: bool, allowDraft: bool)
      returns (raised: bool, result: ValidationResult)
    requires CgsHash.Sound(p)
    ensures fresh(result)
    ensures raised <==> text.Some? && Loads(text.value).Some? && Raises(x, Loads(text.value).value)
    ensures !raised ==> (result.IsOk() <==>
      && text.Some? && Loads(text.value).Some?
      && AllowedExport(p, RESERVED, x, Loads(text.value).value, allowLegacy, allowDraft))
    ensures text.None? ==> result.errors == [Unreadable]
    ensures text.Some? && Loads(text.value).None? ==> result.errors == [InvalidJson]
  {
    result := new ValidationResult();
    if text.None? {
      result.Error(Unreadable);
      return false, result;
    }
    var cgs := Loads(text.value);
    if cgs.None? {
      result.Error(InvalidJson);
      return false, result;
    }
    raised := ValidateCgs(p, RESERVED, x, cgs.value, result, allowLegacy, allowDraft);
    PassesIffAllowed(p, RESERVED, x, cgs.value, allowLegacy, allowDraft);
  }

  /** The verdict of a strict run: the file is accepted exactly when its text loads as a valid export. */
  method AcceptsFile(p: CgsHash.Platform, x: Extras, text: Option<string>) returns (raised: bool, ok: bool)
    requires CgsHash.Sound(p)
    ensures raised <==> text.Some? && Loads(text.value).Some? && Raises(x, Loads(text.value).value)
    ensures !raised ==> (ok <==>
      text.Some? && Loads(text.value).Some? && ValidExport(p, RESERVED, x, Loads(text.value).value))
  {
    var result;
    raised, result := ValidateFile(p, x, text, false, false);
    ok := result.IsOk();
  }

  /** A list as the declared hash: validation raises instead of reporting an error. */
  lemma ListHashRaises(x: Extras, cgs: Json)
    requires cgs == Obj([Member(Lit("metadata"), Obj([Member(Lit("cgs_hash"), Arr([]))]))])
    ensures Raises(x, cgs)
  {
    var md := Obj([Member(Lit("cgs_hash"), Arr([]))]);
    assert Lookup(cgs.members, Lit("metadata")) == md;
    assert md.members[0].key == CgsHash.CGS_HASH;
    assert HasKey(md.members, CgsHash.CGS_HASH);
    assert CgsHash.DeclaredHash(md) == Arr([]);
  }
}
