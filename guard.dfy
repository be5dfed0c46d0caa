/**
 * The server-side duplicate guard: the `gform_validation` filter
 * `duplicate_detection` and the one session slot, `gform_hash`, it keeps.
 *
 * A submission whose fingerprint equals the one already in the slot is a
 * duplicate: the guard turns the form's honeypot on, posts a value for a
 * field id no real field has, so that Gravity Forms discards the entry as
 * spam, and hands the untouched validation result to the
 * `gform_duplicate_prevention_duplicate_entry` action. Any other submission
 * overwrites the slot with its own fingerprint and passes through unchanged.
 */
module DuplicatePrevention {
  import opened Wrappers
  import opened Forms
  import opened InputKeys

  /** The submitted field map, `$_POST`: field name to submitted value. */
  type PostMap = map<string, string>

  /** The sentinel posted for the synthetic honeypot field. */
  const Sentinel := "duplicate"

  /**
   * Everything one call of the filter leaves behind: the session slot, the
   * validation result it returns, the post map after it, and the value the
   * action hook received (None when the hook did not fire).
   */
  datatype Outcome = Outcome(session: Option<string>, result: ValidationResult, post: PostMap, hooked: Option<ValidationResult>)
  {
    predicate Flagged() { hooked.Some? }
  }

  /** The key of the synthetic field: one past the largest field id of the form. */
  function HoneypotKey(form: Form): string
  {
    InputKey(MaxFieldId(form.fields) + 1)
  }

  /**
   * One run of the filter on the stored slot, the fingerprint function, the
   * submitted map and the validation result.
   */
  function Screen(stored: Option<string>, hashArray: PostMap -> string, post: PostMap, vr: ValidationResult): Outcome
  {
    var hash := hashArray(post);
    if stored.Some? && stored.value == hash then
      var marked := vr.(form := vr.form.(enableHoneypot := true));
      Outcome(stored, marked, post[HoneypotKey(marked.form) := Sentinel], Some(vr))
    else
      Outcome(Some(hash), vr, post, None)
  }

  /** The submission is flagged exactly when the slot already holds its fingerprint. */
  lemma FlaggedIffSlotMatches(stored: Option<string>, hashArray: PostMap -> string, post: PostMap, vr: ValidationResult)
    ensures Screen(stored, hashArray, post, vr).Flagged() <==> stored == Some(hashArray(post))
  {
  }

  /** After every call, duplicate or not, the slot holds the fingerprint of the map just submitted. */
  lemma SlotHoldsLatestFingerprint(stored: Option<string>, hashArray: PostMap -> string, post: PostMap, vr: ValidationResult)
    ensures Screen(stored, hashArray, post, vr).session == Some(hashArray(post))
    ensures Screen(stored, hashArray, post, vr).Flagged() ==> Screen(stored, hashArray, post, vr).session == stored
  {
  }

  /** In a fresh session nothing is a duplicate, and the slot then holds the submission's fingerprint. */
  lemma FreshSessionNeverFlags(hashArray: PostMap -> string, post: PostMap, vr: ValidationResult)
    ensures !Screen(None, hashArray, post, vr).Flagged()
    ensures Screen(None, hashArray, post, vr).session == Some(hashArray(post))
  {
  }

  /** A call that does not flag stores the new fingerprint and changes neither the result nor the post map. */
  lemma PassThroughLeavesRequestAlone(stored: Option<string>, hashArray: PostMap -> string, post: PostMap, vr: ValidationResult)
    requires stored != Some(hashArray(post))
    ensures var o := Screen(stored, hashArray, post, vr);
      !o.Flagged() && o.session == Some(hashArray(post)) && o.result == vr && o.post == post
  {
  }

  /**
   * A flagged call changes the validation result only in the form's honeypot
   * switch, which it turns on; validity, form id, fields and settings stay.
   */
  lemma FlaggedOnlyEnablesHoneypot(stored: Option<string>, hashArray: PostMap -> string, post: PostMap, vr: ValidationResult)
    requires stored == Some(hashArray(post))
    ensures var r := Screen(stored, hashArray, post, vr).result;
      && r.form.enableHoneypot
      && r.isValid == vr.isValid
      && r.form.id == vr.form.id
      && r.form.fields == vr.form.fields
      && r.form.settings == vr.form.settings
  {
  }

  /**
   * A flagged call posts the sentinel under one key, `input_<max+1>`, and
   * leaves every other key as submitted; that key is not the input key of
   * any field of the form, so no submitted field value is overwritten.
   */
  lemma FlaggedInjectsOneFreshKey(stored: Option<string>, hashArray: PostMap -> string, post: PostMap, vr: ValidationResult)
    requires stored == Some(hashArray(post))
    ensures var o := Screen(stored, hashArray, post, vr);
      var key := InputKey(MaxFieldId(vr.form.fields) + 1);
      && o.post.Keys == post.Keys + {key}
      && o.post[key] == Sentinel
      && (forall k :: k in post && k != key ==> o.post[k] == post[k])
      && (forall f :: f in vr.form.fields ==> key != InputKey(f.id))
  {
    var max := MaxFieldId(vr.form.fields);
    forall f | f in vr.form.fields ensures InputKey(max + 1) != InputKey(f.id) {
      NextFieldIdIsUnused(vr.form.fields);
      InputKeyInjective(max + 1, f.id);
    }
  }

  /** The action hook receives the validation result as it was before the honeypot was turned on. */
  lemma HookSeesUnmodifiedResult(stored: Option<string>, hashArray: PostMap -> string, post: PostMap, vr: ValidationResult)
    requires stored == Some(hashArray(post))
    ensures Screen(stored, hashArray, post, vr).hooked == Some(vr)
  {
  }

  /**
   * Submitting the same map twice in a row flags the second submission,
   * whatever the slot held before the first, and the slot keeps the first
   * submission's fingerprint.
   */
  lemma ResubmissionIsFlagged(stored: Option<string>, hashArray: PostMap -> string, post: PostMap, first: ValidationResult, second: ValidationResult)
    ensures var o1 := Screen(stored, hashArray, post, first);
      var o2 := Screen(o1.session, hashArray, post, second);
      o2.Flagged() && o2.session == o1.session == Some(hashArray(post))
  {
  }

  /** A submission whose fingerprint differs from the previous one's is not flagged. */
  lemma ChangedSubmissionPasses(stored: Option<string>, hashArray: PostMap -> string, a: PostMap, c: PostMap, first: ValidationResult, second: ValidationResult)
    requires hashArray(a) != hashArray(c)
    ensures var o1 := Screen(stored, hashArray, a, first);
      var o2 := Screen(o1.session, hashArray, c, second);
      !o2.Flagged() && o2.session == Some(hashArray(c))
  {
  }

  /**
   * The plugin object: the session slot `$_SESSION['gform_hash']` and the
   * fingerprint function `hash_array` it compares submissions with.
   */
  class Guard {
    /** The `gform_hash` session slot; None while it is unset. */
    var session: Option<string>
    /** `hash_array`: a deterministic digest of a post map, otherwise unknown. */
    const hashArray: PostMap -> string
    /** The map most recently screened, before any synthetic field was added. */
    ghost var latest: Option<PostMap>

    /** The slot is unset before the first submission, and afterwards holds the latest submission's fingerprint. */
    ghost predicate Valid()
      reads this
    {
      session == if latest.None? then None else Some(hashArray(latest.value))
    }

    /** A guard over a fresh session. */
    constructor (hashArray: PostMap -> string)
      ensures Valid() && session == None && latest == None
      ensures this.hashArray == hashArray
    {
      this.hashArray := hashArray;
      session := None;
      latest := None;
    }

    /**
     * `duplicate_detection`: screens the submitted map against the slot and
     * returns the validation result, the post map after the call, and what
     * the duplicate-entry action received.
     */
    method DuplicateDetection(post: PostMap, vr: ValidationResult) returns (result: ValidationResult, post': PostMap, hooked: Option<ValidationResult>)
      modifies this`session, this`latest
      ensures Outcome(session, result, post', hooked) == Screen(old(session), hashArray, post, vr)
      ensures hooked.Some? <==> old(session) == Some(hashArray(post))
      ensures Valid() && latest == Some(post)
    {
      var hash := hashArray(post);
      result, post', hooked := vr, post, None;
      if session.Some? && session.value == hash {
        var form := vr;
        result := vr.(form := vr.form.(enableHoneypot := true));
        var max := GetMaxFieldId(result.form);
        post' := post[InputKey(max + 1) := Sentinel];
        hooked := Some(form);
      } else {
        session := Some(hash);
      }
      latest := Some(post);
    }
  }

  /** Two submissions of the same map to one fresh guard: the first passes, the second is flagged. */
  method SubmitTwice(hashArray: PostMap -> string, post: PostMap, vr: ValidationResult)
    returns (firstHooked: Option<ValidationResult>, secondHooked: Option<ValidationResult>, secondPost: PostMap)
    ensures firstHooked == None && secondHooked == Some(vr)
    ensures secondPost == post[HoneypotKey(vr.form) := Sentinel]
  {
    var guard := new Guard(hashArray);
    var firstResult, firstPost, secondResult;
    firstResult, firstPost, firstHooked := guard.DuplicateDetection(post, vr);
    secondResult, secondPost, secondHooked := guard.DuplicateDetection(post, vr);
  }

  /** Fields 1, 2 and 5: the synthetic field is `input_6`. */
  lemma SyntheticKeyForFieldsOneTwoFive(vr: ValidationResult)
    requires vr.form.fields == [Field(1, "Name"), Field(2, "Email"), Field(5, "Phone")]
    ensures HoneypotKey(vr.form) == "input_6"
  {
    var fields := vr.form.fields;
    assert fields[..|fields| - 1] == fields[..2];
    assert fields[..2][..1] == fields[..1];
    assert fields[..1][..0] == [];
    assert MaxFieldId(fields[..1]) == 1;
    assert MaxFieldId(fields[..2]) == 2;
    assert MaxFieldId(fields) == 5;
    assert Decimal(6) == ['6'];
  }
}
