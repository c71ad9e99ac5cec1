/**
 * uniqueEmailValidator: a form control's e-mail is rejected when another record
 * already holds it, compared without letter case and surrounding white space.
 */
module UniqueEmail {
  import opened Optional
  import opened Text

  /** One element of the service's (id, email) list. */
  datatype EmailEntry = EmailEntry(id: int, email: string)

  /** The control's value: a string, or anything else. */
  datatype ControlValue = StringValue(s: string) | OtherValue

  datatype ValidationError = NotUniqueEmail

  /** Anything that is not a string is read as the empty string. */
  function ValueText(value: ControlValue): string {
    if value.StringValue? then value.s else ""
  }

  /** `s.trim().toLowerCase()`: the form in which two e-mails are compared. */
  function EmailKey(s: string): string {
    Lower(Trim(s))
  }

  /** An entry clashes when its key is the same and its id is not the one being edited. */
  predicate Conflicts(entry: EmailEntry, key: string, currentUserId: Option<int>) {
    EmailKey(entry.email) == key && currentUserId != Some(entry.id)
  }

  /** `entries.some(...)`. */
  function AnyConflict(entries: seq<EmailEntry>, key: string, currentUserId: Option<int>): (b: bool)
    ensures b <==> exists i :: 0 <= i < |entries| && Conflicts(entries[i], key, currentUserId)
  {
    if entries == [] then false
    else
      var rest := AnyConflict(entries[1..], key, currentUserId);
      assert forall i :: 1 <= i < |entries| ==> entries[i] == entries[1..][i - 1];
      Conflicts(entries[0], key, currentUserId) || rest
  }

  /**
   * The validator closure: `{notUniqueEmail: true}` exactly when some entry with an id
   * other than `currentUserId` holds the same e-mail; with no `currentUserId` every
   * entry counts.
   */
  function UniqueEmailValidator(entries: seq<EmailEntry>, currentUserId: Option<int>, value: ControlValue)
    : (r: Option<ValidationError>)
    ensures r.Some? <==>
      exists i :: 0 <= i < |entries| && Conflicts(entries[i], EmailKey(ValueText(value)), currentUserId)
    ensures r.Some? ==> r.value == NotUniqueEmail
    ensures entries == [] ==> r == None
  {
    if AnyConflict(entries, EmailKey(ValueText(value)), currentUserId) then Some(NotUniqueEmail) else None
  }

  /** Two strings that differ only in letter case or surrounding white space compare equal. */
  lemma EmailKeyIgnoresCaseAndPadding(a: string, b: string, before: string, after: string)
    requires AllWhitespace(before) && AllWhitespace(after)
    ensures EmailKey(before + a + after) == EmailKey(a)
    ensures Lower(a) == Lower(b) ==> EmailKey(a) == EmailKey(b)
  {
    TrimIgnoresPadding(before, a, after);
    TrimLowerCommute(a);
    TrimLowerCommute(b);
  }

  /** The verdict does not change when the typed value differs only in case or padding. */
  lemma ValidatorIgnoresCaseAndPadding(entries: seq<EmailEntry>, currentUserId: Option<int>,
                                       a: string, b: string, before: string, after: string)
    requires AllWhitespace(before) && AllWhitespace(after)
    requires Lower(a) == Lower(b)
    ensures UniqueEmailValidator(entries, currentUserId, StringValue(before + a + after))
         == UniqueEmailValidator(entries, currentUserId, StringValue(b))
  {
    EmailKeyIgnoresCaseAndPadding(a, b, before, after);
    ValidatorSeesOnlyTheKey(entries, currentUserId, StringValue(before + a + after), StringValue(b));
  }

  /** The verdict depends on the typed value only through its key. */
  lemma ValidatorSeesOnlyTheKey(entries: seq<EmailEntry>, currentUserId: Option<int>, v: ControlValue, w: ControlValue)
    requires EmailKey(ValueText(v)) == EmailKey(ValueText(w))
    ensures UniqueEmailValidator(entries, currentUserId, v) == UniqueEmailValidator(entries, currentUserId, w)
  {
  }

  /** The record being edited never clashes with itself, whatever its stored e-mail. */
  lemma OwnEntryNeverConflicts(entries: seq<EmailEntry>, id: int, email: string, value: ControlValue)
    ensures UniqueEmailValidator(entries + [EmailEntry(id, email)], Some(id), value)
         == UniqueEmailValidator(entries, Some(id), value)
  {
    var key := EmailKey(ValueText(value));
    AnyConflictAppend(entries, EmailEntry(id, email), key, Some(id));
  }

  /** Appending an entry adds exactly that entry's clash to `some`. */
  lemma {:induction false} AnyConflictAppend(entries: seq<EmailEntry>, e: EmailEntry, key: string, currentUserId: Option<int>)
    ensures AnyConflict(entries + [e], key, currentUserId)
        == (AnyConflict(entries, key, currentUserId) || Conflicts(e, key, currentUserId))
  {
    var all := entries + [e];
    if entries == [] {
      assert all == [e];
      assert all[1..] == [];
    } else {
      assert all[0] == entries[0];
      assert all[1..] == entries[1..] + [e];
      AnyConflictAppend(entries[1..], e, key, currentUserId);
    }
  }

  /** Without a current id a record keeping its own e-mail is reported as a duplicate. */
  lemma OmittedIdCountsOwnEntry(id: int, email: string)
    ensures UniqueEmailValidator([EmailEntry(id, email)], None, StringValue(email)) == Some(NotUniqueEmail)
    ensures UniqueEmailValidator([EmailEntry(id, email)], Some(id), StringValue(email)) == None
  {
    assert [EmailEntry(id, email)][0] == EmailEntry(id, email);
  }

  /**
   * The check the inline editor installs: it builds the validator without the edited
   * record's id, so every entry counts, the edited record's own included.
   */
  function InlineEditCheck(entries: seq<EmailEntry>, editedId: int, value: ControlValue): (r: Option<ValidationError>)
    ensures r.Some? <==>
      exists i :: 0 <= i < |entries| && EmailKey(entries[i].email) == EmailKey(ValueText(value))
  {
    UniqueEmailValidator(entries, None, value)
  }

  /** As written, opening the inline editor on a record flags the record's unchanged e-mail. */
  lemma InlineEditRejectsOwnEmail(id: int, email: string)
    ensures InlineEditCheck([EmailEntry(id, email)], id, StringValue(email)) == Some(NotUniqueEmail)
  {
    OmittedIdCountsOwnEntry(id, email);
  }

  /** The inline editor's check with the edited record's id passed, as the validator's parameter intends. */
  function CorrectedInlineEditCheck(entries: seq<EmailEntry>, editedId: int, value: ControlValue)
    : (r: Option<ValidationError>)
    ensures r.Some? <==>
      exists i :: 0 <= i < |entries| && EmailKey(entries[i].email) == EmailKey(ValueText(value)) && entries[i].id != editedId
  {
    UniqueEmailValidator(entries, Some(editedId), value)
  }

  /** Corrected, the edited record's own entry never makes its e-mail a duplicate. */
  lemma CorrectedInlineEditIgnoresOwnEntry(entries: seq<EmailEntry>, id: int, email: string, value: ControlValue)
    ensures CorrectedInlineEditCheck(entries + [EmailEntry(id, email)], id, value)
         == CorrectedInlineEditCheck(entries, id, value)
    ensures CorrectedInlineEditCheck([EmailEntry(id, email)], id, StringValue(email)) == None
  {
    OwnEntryNeverConflicts(entries, id, email, value);
    OmittedIdCountsOwnEntry(id, email);
  }
}
