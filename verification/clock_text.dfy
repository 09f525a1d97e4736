/**
 * The colon-separated timer texts the pages display (`mm:ss`, `hh:mm:ss`,
 * `h:mm:ss`): what it means for such a text to show a number of seconds, so
 * that each formatter can be proved to show exactly the seconds it was given.
 */
module ClockText {
  import opened Text
  import opened Numbers

  /** Every field is a digit string. */
  predicate DigitFields(fields: seq<string>) {
    forall i :: 0 <= i < |fields| ==> AllDigits(fields[i])
  }

  /**
   * Timer fields: a non-empty leading field of digits, then fields of exactly
   * two digits each showing less than 60.
   */
  predicate ClockFields(fields: seq<string>) {
    && |fields| >= 1
    && fields[0] != []
    && DigitFields(fields)
    && forall i :: 1 <= i < |fields| ==> |fields[i]| == 2 && Value(fields[i]) < 60
  }

  /** The seconds the fields show, each later field one place of base 60. */
  function Seconds(fields: seq<string>): nat
    requires DigitFields(fields)
  {
    if fields == [] then 0
    else Seconds(fields[..|fields| - 1]) * 60 + Value(fields[|fields| - 1])
  }

  lemma DigitsColonFree(s: string)
    requires AllDigits(s)
    ensures ':' !in s
  {
    assert forall k :: 0 <= k < |s| ==> s[k] != ':';
  }

  /** Two digit strings joined by a colon split back into the two. */
  lemma SplitTwo(a: string, b: string)
    requires AllDigits(a) && AllDigits(b)
    ensures Split(a + ":" + b, ':') == [a, b]
    ensures Seconds([a, b]) == Value(a) * 60 + Value(b)
  {
    DigitsColonFree(a);
    DigitsColonFree(b);
    SplitAppend(a, ':', b);
    SplitOfFree(b, ':');
    assert [a, b][..1] == [a];
    assert [a][..0] == [];
    assert Seconds([a]) == Value(a);
  }

  /** Three digit strings joined by colons split back into the three. */
  lemma SplitThree(a: string, b: string, c: string)
    requires AllDigits(a) && AllDigits(b) && AllDigits(c)
    ensures Split(a + ":" + b + ":" + c, ':') == [a, b, c]
    ensures Seconds([a, b, c]) == (Value(a) * 60 + Value(b)) * 60 + Value(c)
  {
    DigitsColonFree(a);
    SplitTwo(b, c);
    var tail := b + ":" + c;
    assert a + ":" + b + ":" + c == a + [':'] + tail;
    SplitAppend(a, ':', tail);
    SecondsThree(a, b, c);
  }

  lemma SecondsThree(a: string, b: string, c: string)
    requires AllDigits(a) && AllDigits(b) && AllDigits(c)
    ensures Seconds([a, b, c]) == (Value(a) * 60 + Value(b)) * 60 + Value(c)
  {
    SplitTwo(a, b);
    assert [a, b, c][..2] == [a, b];
  }

  /** A two-digit field showing less than 60. */
  predicate PlaceField(f: string) {
    |f| == 2 && AllDigits(f) && Value(f) < 60
  }

  /** A leading digit field and one place field are timer fields. */
  lemma ClockFieldsTwo(a: string, b: string)
    requires a != [] && AllDigits(a) && PlaceField(b)
    ensures ClockFields([a, b])
  {
  }

  /** A leading digit field and two place fields are timer fields. */
  lemma ClockFieldsThree(a: string, b: string, c: string)
    requires a != [] && AllDigits(a) && PlaceField(b) && PlaceField(c)
    ensures ClockFields([a, b, c])
  {
    var fields := [a, b, c];
    forall i | 1 <= i < 3 ensures |fields[i]| == 2 && Value(fields[i]) < 60 {
      assert PlaceField(fields[i]);
    }
  }

  /** Division by 60 with a remainder below 60 is unique. */
  lemma ModUnique(x: int, q: int, s: int)
    requires 0 <= s < 60 && x == q * 60 + s
    ensures x % 60 == s && x / 60 == q
  {
  }

  /** Hours, minutes below 60 and seconds below 60 add back up to the seconds. */
  lemma ClockPlaces(seconds: nat)
    ensures (seconds % 3600) / 60 < 60
    ensures seconds == (seconds / 3600 * 60 + (seconds % 3600) / 60) * 60 + seconds % 60
  {
    var h := seconds / 3600;
    var r := seconds % 3600;
    var m := r / 60;
    var s := r % 60;
    assert r == m * 60 + s;
    ModUnique(seconds, h * 60 + m, s);
  }

  /** `padStart(2, "0")` of a number below 60: two digits showing it. */
  lemma TwoDigitField(n: nat)
    requires n < 60
    ensures PlaceField(ZeroPad(n, 2)) && Value(ZeroPad(n, 2)) == n
  {
    ZeroPad2Length(n);
  }
}
