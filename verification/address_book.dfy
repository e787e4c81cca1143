/** The contact book (src/app/addressBook.tsx): a list of contacts with a
    search box, a favourite star, deletion, and one dialog that either edits
    a contact or adds a new one. */
module AddressBook {
  import opened Js
  import opened Text
  import Lists

  /** A contact. The date of the last transaction is an instant in
      milliseconds; the note is optional. */
  datatype Contact = Contact(
    id: string,
    name: string,
    address: string,
    isFavorite: bool,
    lastTransactionDate: Option<int>,
    transactionCount: nat,
    note: Option<string>)

  // -----------------------------------------------------------------------
  // Search

  /** Whether a contact matches the search term, ignoring ASCII case. */
  predicate Matches(c: Contact, term: string) {
    Contains(ToLower(c.name + " " + c.address), ToLower(term))
  }

  /** The contacts the table shows for a search term. */
  function Search(contacts: seq<Contact>, term: string): (r: seq<Contact>)
    ensures Lists.IsSubsequence(r, contacts)
    ensures forall c :: c in r <==> c in contacts && Matches(c, term)
    ensures forall c :: multiset(r)[c] == if Matches(c, term) then multiset(contacts)[c] else 0
  {
    Lists.Filter(contacts, c => Matches(c, term))
  }

  /** An empty search box shows every contact. */
  lemma SearchEmpty(contacts: seq<Contact>)
    ensures Search(contacts, "") == contacts
  {
    forall i | 0 <= i < |contacts| ensures Matches(contacts[i], "") {
      ContainsEmpty(ToLower(contacts[i].name + " " + contacts[i].address));
    }
  }

  /** The search ignores the case of the term. */
  lemma SearchIgnoresCase(contacts: seq<Contact>, term: string)
    ensures Search(contacts, ToLower(term)) == Search(contacts, term)
  {
    ToLowerIdempotent(term);
    Lists.FilterExt(contacts, c => Matches(c, ToLower(term)), c => Matches(c, term));
  }

  // -----------------------------------------------------------------------
  // Favourite, delete

  /** Flips the favourite flag of the contacts with this id. */
  function ToggleFavorite(contacts: seq<Contact>, id: string): (r: seq<Contact>)
    ensures |r| == |contacts|
    ensures forall i :: 0 <= i < |r| ==> r[i].(isFavorite := contacts[i].isFavorite) == contacts[i]
    ensures forall i :: 0 <= i < |r| ==> (r[i].isFavorite != contacts[i].isFavorite <==> contacts[i].id == id)
  {
    seq(|contacts|, i requires 0 <= i < |contacts| =>
      if contacts[i].id == id then contacts[i].(isFavorite := !contacts[i].isFavorite) else contacts[i])
  }

  /** Starring twice restores the list. */
  lemma ToggleFavoriteTwice(contacts: seq<Contact>, id: string)
    ensures ToggleFavorite(ToggleFavorite(contacts, id), id) == contacts
  {
  }

  /** Removes every contact with this id. */
  function Delete(contacts: seq<Contact>, id: string): (r: seq<Contact>)
    ensures Lists.IsSubsequence(r, contacts)
    ensures forall c :: c in r <==> c in contacts && c.id != id
    ensures forall c :: multiset(r)[c] == if c.id != id then multiset(contacts)[c] else 0
  {
    Lists.Filter(contacts, (c: Contact) => c.id != id)
  }

  predicate HasId(contacts: seq<Contact>, id: string) {
    exists i :: 0 <= i < |contacts| && contacts[i].id == id
  }

  /** Deleting an id that is not there changes nothing. */
  lemma DeleteAbsent(contacts: seq<Contact>, id: string)
    requires !HasId(contacts, id)
    ensures Delete(contacts, id) == contacts
  {
    assert forall i :: 0 <= i < |contacts| ==> contacts[i].id != id;
  }

  /** A second delete of the same id changes nothing. */
  lemma DeleteIdempotent(contacts: seq<Contact>, id: string)
    ensures Delete(Delete(contacts, id), id) == Delete(contacts, id)
  {
    Lists.FilterIdempotent(contacts, (c: Contact) => c.id != id);
  }

  // -----------------------------------------------------------------------
  // The contact dialog

  /** The contact list with the dialog's state: whether it edits an existing
      contact, the contact it was opened on, and whether it is open. */
  datatype Book = Book(contacts: seq<Contact>, isEditing: bool, current: Option<Contact>, dialogOpen: bool)

  /** The empty draft the "add" button opens the dialog on. */
  const Draft := Contact("", "", "", false, None, 0, None)

  function AddNew(b: Book): (r: Book)
    ensures r.contacts == b.contacts && r.dialogOpen && !r.isEditing
    ensures r.current.Some? && r.current.value.name == "" && r.current.value.address == ""
    ensures r.current.Some? && !r.current.value.isFavorite && r.current.value.transactionCount == 0
  {
    b.(isEditing := false, current := Some(Draft), dialogOpen := true)
  }

  function Edit(b: Book, c: Contact): (r: Book)
    ensures r.contacts == b.contacts && r.dialogOpen && r.isEditing && r.current == Some(c)
  {
    b.(isEditing := true, current := Some(c), dialogOpen := true)
  }

  /** Saving an edited contact puts it in place of every contact with its id. */
  function Replace(contacts: seq<Contact>, c: Contact): (r: seq<Contact>)
    ensures |r| == |contacts|
    ensures forall i :: 0 <= i < |r| ==> r[i].id == contacts[i].id
    ensures forall i :: 0 <= i < |r| ==> (r[i] == c || r[i] == contacts[i])
    ensures forall i :: 0 <= i < |r| && contacts[i].id == c.id ==> r[i] == c
    ensures forall i :: 0 <= i < |r| && contacts[i].id != c.id ==> r[i] == contacts[i]
    ensures HasId(contacts, c.id) ==> c in r
  {
    seq(|contacts|, i requires 0 <= i < |contacts| => if contacts[i].id == c.id then c else contacts[i])
  }

  /** Saving the same edit twice is the same as saving it once. */
  lemma ReplaceIdempotent(contacts: seq<Contact>, c: Contact)
    ensures Replace(Replace(contacts, c), c) == Replace(contacts, c)
  {
  }

  /** With ids unique, an edit is a single-position update. */
  lemma ReplaceUpdatesOne(contacts: seq<Contact>, k: nat, c: Contact)
    requires k < |contacts| && contacts[k].id == c.id
    requires forall i :: 0 <= i < |contacts| && i != k ==> contacts[i].id != c.id
    ensures Replace(contacts, c) == contacts[k := c]
  {
  }

  /** An edit of a contact that is no longer in the list changes nothing. */
  lemma ReplaceAbsent(contacts: seq<Contact>, c: Contact)
    requires !HasId(contacts, c.id)
    ensures Replace(contacts, c) == contacts
  {
  }

  /** An edit touches only the contacts with the edited id: once those are
      deleted, the list is the same as without the edit. */
  lemma DeleteUndoesReplace(contacts: seq<Contact>, c: Contact)
    ensures Delete(Replace(contacts, c), c.id) == Delete(contacts, c.id)
  {
    Lists.FilterAgree(Replace(contacts, c), contacts, (x: Contact) => x.id != c.id);
  }

  /** Saving a new contact appends it under a freshly generated id. */
  function Append(contacts: seq<Contact>, c: Contact, newId: string): (r: seq<Contact>)
    ensures |r| == |contacts| + 1
    ensures r[..|contacts|] == contacts
    ensures r[|contacts|].(id := c.id) == c && r[|contacts|].id == newId
  {
    contacts + [c.(id := newId)]
  }

  /** A contact added under an id no other contact has is removed again by
      deleting that id. */
  lemma DeleteUndoesAppend(contacts: seq<Contact>, c: Contact, newId: string)
    requires !HasId(contacts, newId)
    ensures Delete(Append(contacts, c, newId), newId) == contacts
  {
    Lists.FilterAppendDropped(contacts, [c.(id := newId)], (x: Contact) => x.id != newId);
    DeleteAbsent(contacts, newId);
  }

  /** The dialog's save: replace in edit mode, append otherwise; either way
      the dialog closes. The generated id is an input. */
  function Save(b: Book, c: Contact, newId: string): (r: Book)
    ensures !r.dialogOpen && r.isEditing == b.isEditing && r.current == b.current
    ensures b.isEditing ==> |r.contacts| == |b.contacts|
    ensures !b.isEditing ==> |r.contacts| == |b.contacts| + 1 && r.contacts[..|b.contacts|] == b.contacts
    ensures b.isEditing ==>
      forall i :: 0 <= i < |r.contacts| ==> r.contacts[i] == (if b.contacts[i].id == c.id then c else b.contacts[i])
    ensures !b.isEditing ==> r.contacts == b.contacts + [c.(id := newId)]
  {
    var contacts := if b.isEditing then Replace(b.contacts, c) else Append(b.contacts, c, newId);
    b.(contacts := contacts, dialogOpen := false)
  }

  /** After saving an edit, every contact with the edited id is the saved
      contact, and it is in the list if its id was. */
  lemma SaveEditThenLookup(b: Book, c: Contact, newId: string, i: nat)
    requires b.isEditing && i < |b.contacts| && b.contacts[i].id == c.id
    ensures Save(b, c, newId).contacts[i] == c
    ensures c in Save(b, c, newId).contacts
  {
  }

  /** A contact added under a fresh id is removed again by deleting that id,
      and an edit leaves alone everything but the edited id. */
  lemma SaveThenDelete(b: Book, c: Contact, newId: string)
    requires !b.isEditing ==> !HasId(b.contacts, newId)
    ensures !b.isEditing ==> Delete(Save(b, c, newId).contacts, newId) == b.contacts
    ensures b.isEditing ==> Delete(Save(b, c, newId).contacts, c.id) == Delete(b.contacts, c.id)
  {
    if b.isEditing {
      DeleteUndoesReplace(b.contacts, c);
    } else {
      DeleteUndoesAppend(b.contacts, c, newId);
    }
  }

  // -----------------------------------------------------------------------
  // The dialog's form

  datatype Field = NameField | AddressField | NoteField

  /** A text input of the dialog: replaces only the named field. */
  function HandleChange(form: Contact, field: Field, value: string): (r: Contact)
    ensures field.NameField? ==> r == form.(name := value)
    ensures field.AddressField? ==> r == form.(address := value)
    ensures field.NoteField? ==> r == form.(note := Some(value))
  {
    match field
    case NameField => form.(name := value)
    case AddressField => form.(address := value)
    case NoteField => form.(note := Some(value))
  }

  /** What the note input shows: the note, or nothing. */
  function NoteText(form: Contact): (r: string)
    ensures form.note.Some? ==> r == form.note.value
    ensures form.note.None? ==> r == ""
  {
    match form.note
    case Some(n) => n
    case None => ""
  }

  /** A character the address pattern's class `[^@\s]` admits. */
  predicate AddressChar(c: char) {
    c != '@' && !IsSpace(c)
  }

  predicate AllAddressChars(s: string) {
    forall k :: 0 <= k < |s| ==> AddressChar(s[k])
  }

  /** `[^@\s]+`. */
  predicate AddressRun(s: string) {
    |s| > 0 && AllAddressChars(s)
  }

  /** The address input's pattern `^[^@\s]+@[^@\s]+\.[^@\s]+$`, read
      structurally: a run, '@', a run, '.', a run, covering the whole text. */
  ghost predicate MatchesAddressPattern(s: string) {
    exists i, j | 0 <= i < j < |s| ::
      && AddressRun(s[..i]) && s[i] == '@'
      && AddressRun(s[i + 1..j]) && s[j] == '.'
      && AddressRun(s[j + 1..])
  }

  /** A direct reading of the same rule: exactly one '@', no white space, a
      non-empty part before the '@', and a '.' in the part after it that is
      neither its first nor its last character. */
  function IsAddress(s: string): (r: bool) {
    match SplitFirst(s, '@')
    case None => false
    case Some((local, domain)) =>
      && local != "" && '@' !in domain && NoSpace(s)
      && |domain| >= 3 && '.' in domain[1..|domain| - 1]
  }

  lemma AllAddressCharsJoin(a: string, b: string)
    ensures AllAddressChars(a + b) <==> AllAddressChars(a) && AllAddressChars(b)
  {
    assert forall k :: 0 <= k < |a| ==> a[k] == (a + b)[k];
    assert forall k :: 0 <= k < |b| ==> b[k] == (a + b)[|a| + k];
  }

  lemma AddressCharsFacts(t: string)
    requires AllAddressChars(t)
    ensures '@' !in t && NoSpace(t)
  {
    forall m | 0 <= m < |t| ensures t[m] != '@' {
      assert AddressChar(t[m]);
    }
  }

  lemma NoSpaceJoin(a: string, b: string)
    requires NoSpace(a) && NoSpace(b)
    ensures NoSpace(a + b)
  {
    assert forall k :: |a| <= k < |a + b| ==> (a + b)[k] == b[k - |a|];
  }

  lemma AddressToPattern(s: string)
    requires IsAddress(s)
    ensures MatchesAddressPattern(s)
  {
    var (local, domain) := SplitFirst(s, '@').value;
    assert s == local + ['@'] + domain;
    var i := |local|;
    var d := domain[1..|domain| - 1];
    var k :| 0 <= k < |d| && d[k] == '.';
    var j := i + 2 + k;
    assert AllAddressChars(local) by {
      forall m | 0 <= m < |local| ensures AddressChar(local[m]) {
        assert local[m] == s[m];
      }
    }
    assert AllAddressChars(domain) by {
      forall m | 0 <= m < |domain| ensures AddressChar(domain[m]) {
        assert domain[m] == s[i + 1 + m];
      }
    }
    assert domain == domain[..k + 1] + domain[k + 1..];
    AllAddressCharsJoin(domain[..k + 1], domain[k + 1..]);
    assert domain[k + 1..] == domain[k + 1..k + 2] + domain[k + 2..];
    AllAddressCharsJoin(domain[k + 1..k + 2], domain[k + 2..]);
    assert s[..i] == local;
    assert s[i + 1..j] == domain[..k + 1];
    assert s[j + 1..] == domain[k + 2..];
    assert s[i] == '@' && s[j] == '.';
  }

  /** The part after the '@' that the pattern builds: a run, '.', a run. */
  lemma DomainFacts(mid: string, last: string)
    requires AddressRun(mid) && AddressRun(last)
    ensures var domain := mid + ['.'] + last;
      && '@' !in domain && NoSpace(domain)
      && |domain| >= 3 && '.' in domain[1..|domain| - 1]
  {
    var domain := mid + ['.'] + last;
    AllAddressCharsJoin(mid, ['.']);
    AllAddressCharsJoin(mid + ['.'], last);
    AddressCharsFacts(domain);
    assert domain[1..|domain| - 1][|mid| - 1] == '.';
  }

  lemma PatternToAddress(s: string, i: nat, j: nat)
    requires 0 <= i < j < |s|
    requires AddressRun(s[..i]) && s[i] == '@'
    requires AddressRun(s[i + 1..j]) && s[j] == '.'
    requires AddressRun(s[j + 1..])
    ensures IsAddress(s)
  {
    var local, mid, last := s[..i], s[i + 1..j], s[j + 1..];
    var domain := s[i + 1..];
    assert domain == mid + ['.'] + last;
    assert s == local + ['@'] + domain;
    DomainFacts(mid, last);
    AddressCharsFacts(local);
    SplitFirstOfJoin(local, '@', domain);
    NoSpaceJoin(local, ['@']);
    NoSpaceJoin(local + ['@'], domain);
  }

  lemma AddressPatternIff(s: string)
    ensures IsAddress(s) <==> MatchesAddressPattern(s)
  {
    if IsAddress(s) {
      AddressToPattern(s);
    }
    if MatchesAddressPattern(s) {
      var i, j :| 0 <= i < j < |s| && AddressRun(s[..i]) && s[i] == '@'
        && AddressRun(s[i + 1..j]) && s[j] == '.' && AddressRun(s[j + 1..]);
      PatternToAddress(s, i, j);
    }
  }

  /** The dialog submits only when the name is filled in and the address is
      filled in and matches the pattern; the browser blocks it otherwise. */
  function CanSubmit(form: Contact): (r: bool)
    ensures r <==> form.name != "" && MatchesAddressPattern(form.address)
  {
    AddressPatternIff(form.address);
    form.name != "" && form.address != "" && IsAddress(form.address)
  }

  /** The dialog's submit: a form the browser accepts is saved; otherwise
      nothing happens and the dialog stays open. */
  function Submit(b: Book, form: Contact, newId: string): (r: Book)
    ensures CanSubmit(form) ==> r == Save(b, form, newId)
    ensures !CanSubmit(form) ==> r == b
  {
    if CanSubmit(form) then Save(b, form, newId) else b
  }

  /** Every contact's address matches the pattern. */
  predicate AddressesValid(contacts: seq<Contact>) {
    forall i :: 0 <= i < |contacts| ==> IsAddress(contacts[i].address)
  }

  /** Submitting through the dialog never brings in an address the pattern
      refuses, in either mode. */
  lemma SubmitKeepsAddressesValid(b: Book, form: Contact, newId: string)
    requires AddressesValid(b.contacts)
    ensures AddressesValid(Submit(b, form, newId).contacts)
  {
  }

  /** An address without a '.' after the '@' is refused. */
  lemma NoDotRefused(local: string, host: string)
    requires '@' !in local && '.' !in host
    ensures !IsAddress(local + "@" + host)
  {
    SplitFirstOfJoin(local, '@', host);
  }
}
