/** The event name a notification is emitted under: the requested name
    upper-cased, then with every space replaced by an underscore. Only ASCII
    letters change case. */
module EventName {

  predicate IsLowerAscii(c: char) {
    'a' <= c <= 'z'
  }

  /** `str.upper` on one character, for ASCII. */
  function UpperChar(c: char): (u: char)
    ensures !IsLowerAscii(u)
    ensures IsLowerAscii(c) ==> u as int == c as int - 32
    ensures !IsLowerAscii(c) ==> u == c
  {
    if IsLowerAscii(c) then (c as int - 32) as char else c
  }

  /** `s.upper()`. */
  function Upper(s: string): (r: string)
    ensures |r| == |s|
    ensures forall i :: 0 <= i < |s| ==> r[i] == UpperChar(s[i])
  {
    if |s| == 0 then "" else [UpperChar(s[0])] + Upper(s[1..])
  }

  /** `s.replace(" ", "_")`. */
  function ReplaceSpaces(s: string): (r: string)
    ensures |r| == |s|
    ensures forall i :: 0 <= i < |s| ==> r[i] == if s[i] == ' ' then '_' else s[i]
  {
    if |s| == 0 then "" else [if s[0] == ' ' then '_' else s[0]] + ReplaceSpaces(s[1..])
  }

  /** `event.upper().replace(" ", "_")`. */
  function Normalize(event: string): (r: string)
    ensures |r| == |event|
    ensures forall i :: 0 <= i < |r| ==> r[i] != ' ' && !IsLowerAscii(r[i])
    // every other character is kept, upper-cased
    ensures forall i :: 0 <= i < |event| && event[i] != ' ' ==> r[i] == UpperChar(event[i])
    ensures forall i :: 0 <= i < |event| && event[i] == ' ' ==> r[i] == '_'
  {
    ReplaceSpaces(Upper(event))
  }

  /** Normalising a normalised name changes nothing. */
  lemma NormalizeIdempotent(event: string)
    ensures Normalize(Normalize(event)) == Normalize(event)
  {
  }

  /** A name is the normalisation of `event` when it agrees with it character by character. */
  lemma NormalizeCharwise(event: string, expected: string)
    requires |expected| == |event|
    requires forall i :: 0 <= i < |event| ==>
               expected[i] == if event[i] == ' ' then '_' else UpperChar(event[i])
    ensures Normalize(event) == expected
  {
  }

  /** "my event" is emitted as "MY_EVENT". */
  lemma NormalizeMyEvent()
    ensures Normalize("my event") == "MY_EVENT"
  {
    NormalizeCharwise("my event", "MY_EVENT");
  }

  /** "My Event Name" is emitted as "MY_EVENT_NAME". */
  lemma NormalizeMyEventName()
    ensures Normalize("My Event Name") == "MY_EVENT_NAME"
  {
    NormalizeCharwise("My Event Name", "MY_EVENT_NAME");
  }
}
