/**
 * The contact record and its small value objects: Pin and Note.
 * Name, Email, Address and Tag are not part of this model beyond their text;
 * a phone number is a non-empty string of decimal digits, which is what lets
 * `new BigInteger(phone.toString())` succeed when the list is sorted by phone.
 */
module Persons {
  import opened Text
  import opened Results

  // ---------------------------------------------------------------------------
  // Pin

  const PinnedSymbol: string := "[PINNED]"
  const NotPinnedSymbol: string := ""

  /** Whether a person is pinned. Java's `value` field is always ToString(). */
  datatype Pin = Pin(isPinned: bool) {

    /** Pin.toString() */
    function ToString(): (s: string)
      ensures s == PinnedSymbol || s == NotPinnedSymbol
      ensures (s == PinnedSymbol) == isPinned
    {
      if isPinned then PinnedSymbol else NotPinnedSymbol
    }
  }

  /** The no-argument constructor `new Pin()`: a pinned pin. */
  function NewPin(): (p: Pin)
    ensures p.isPinned && p.ToString() == PinnedSymbol
  {
    Pin(true)
  }

  /** `new Pin(String)`: only the two symbols are accepted. */
  function PinFromString(s: string): (r: Result<Pin, ModelError>)
    ensures r.Ok? <==> s == NotPinnedSymbol || s == PinnedSymbol
    ensures r.Ok? ==> r.value.ToString() == s && r.value.isPinned == (s == PinnedSymbol)
    ensures r.Err? ==> r.error.IllegalArgument?
  {
    if s == [] then Ok(Pin(false))
    else if s == PinnedSymbol then Ok(Pin(true))
    else Err(IllegalArgument("Cannot resolve pin symbol: " + s))
  }

  /** Every pin survives the trip through its string form. */
  lemma PinRoundTrip(p: Pin)
    ensures PinFromString(p.ToString()) == Ok(p)
  {
  }

  // ---------------------------------------------------------------------------
  // Note

  const BlankNoteValue: string := "<Blank Note>"
  const DefaultNoteValue: string := ""

  /** A free-text note; `value` is never null. */
  datatype Note = Note(value: string) {

    /** Note.isBlank(): empty or white space only. */
    predicate IsBlank() {
      Text.IsBlank(value)
    }

    /** Note.toString(): a blank note is shown as "<Blank Note>". */
    function ToString(): (s: string)
      ensures !IsBlank() ==> s == value
      ensures IsBlank() ==> s == BlankNoteValue
      ensures !Text.IsBlank(s)
    {
      assert BlankNoteValue[0] == '<';
      if IsBlank() then BlankNoteValue else value
    }
  }

  /** Note.createDefaultNote() */
  function DefaultNote(): (n: Note)
    ensures n.value == DefaultNoteValue && n.IsBlank() && n.ToString() == BlankNoteValue
  {
    Note(DefaultNoteValue)
  }

  // ---------------------------------------------------------------------------
  // Person

  /** A phone number as the Phone value object guarantees it: decimal digits only. */
  type PhoneNumber = s: string | |s| > 0 && IsDigits(s) witness "0"

  /** The numeric value `new BigInteger(phone)` gives to a phone number. */
  function PhoneValue(phone: PhoneNumber): nat {
    DigitsValue(phone)
  }

  /**
   * An immutable contact. Tags are a set of tag names, so the record holds its
   * own copy whatever the caller later does with the set it passed in.
   */
  datatype Person = Person(
    name: string,
    phone: PhoneNumber,
    email: string,
    address: string,
    tags: set<string>,
    note: Note,
    pin: Pin)

  /** The five-argument constructor: default (empty) note, not pinned. */
  function NewPerson(name: string, phone: PhoneNumber, email: string, address: string, tags: set<string>): (p: Person)
    ensures p.note.value == "" && !p.pin.isPinned
    ensures p.name == name && p.phone == phone && p.email == email && p.address == address && p.tags == tags
  {
    NewPersonWithNote(name, phone, email, address, tags, DefaultNote())
  }

  /** The six-argument constructor: the given note, not pinned. */
  function NewPersonWithNote(name: string, phone: PhoneNumber, email: string, address: string, tags: set<string>, note: Note): (p: Person)
    ensures p.note == note && !p.pin.isPinned
    ensures p.name == name && p.phone == phone && p.email == email && p.address == address && p.tags == tags
  {
    Person(name, phone, email, address, tags, note, Pin(false))
  }

  /**
   * Person.isSamePerson: the weak, identity notion of equality. `other` is
   * None for a Java null. Identity is the email address, not the name.
   */
  predicate IsSamePerson(p: Person, other: Option<Person>) {
    other.Some? && other.value.email == p.email
  }

  lemma IsSamePersonReflexive(p: Person)
    ensures IsSamePerson(p, Some(p))
  {
  }

  lemma IsSamePersonSymmetric(p: Person, q: Person)
    ensures IsSamePerson(p, Some(q)) <==> IsSamePerson(q, Some(p))
  {
  }

  lemma IsSamePersonTransitive(p: Person, q: Person, r: Person)
    requires IsSamePerson(p, Some(q)) && IsSamePerson(q, Some(r))
    ensures IsSamePerson(p, Some(r))
  {
  }

  /** Full equality (Person.equals) is the stronger notion: it implies identity. */
  lemma EqualIsSamePerson(p: Person, q: Person)
    requires p == q
    ensures IsSamePerson(p, Some(q))
  {
  }

  /** Two records with the same email but another differing field are the same person yet not equal. */
  lemma SamePersonNotEqual(p: Person, name: string)
    requires name != p.name
    ensures IsSamePerson(p, Some(p.(name := name))) && p != p.(name := name)
  {
  }
}
