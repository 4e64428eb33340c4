/** The text of an entity permission: "allow:e" and "deny:e" entries joined by commas. */
module PermissionText {
  import opened Types

  // ----- splitting and joining

  /** The pieces between separators; the empty text has one empty piece. */
  function Split(s: string, sep: char): (r: seq<string>)
    ensures r != []
  {
    if s == [] then [[]]
    else if s[0] == sep then [[]] + Split(s[1..], sep)
    else
      var rest := Split(s[1..], sep);
      [[s[0]] + rest[0]] + rest[1..]
  }

  function Join(parts: seq<string>, sep: char): string
    requires parts != []
  {
    if |parts| == 1 then parts[0] else parts[0] + [sep] + Join(parts[1..], sep)
  }

  lemma {:induction false} JoinOfSplit(s: string, sep: char)
    ensures Join(Split(s, sep), sep) == s
    ensures forall i | 0 <= i < |Split(s, sep)| :: sep !in Split(s, sep)[i]
  {
    if s == [] {
    } else {
      JoinOfSplit(s[1..], sep);
      var rest := Split(s[1..], sep);
      assert s == [s[0]] + s[1..];
      if s[0] == sep {
        assert Split(s, sep)[1..] == rest;
      } else {
        var r := Split(s, sep);
        assert r[1..] == rest[1..];
        if |rest| > 1 {
          assert r[0] + [sep] + Join(r[1..], sep) == [s[0]] + (rest[0] + [sep] + Join(rest[1..], sep));
        }
      }
    }
  }

  lemma {:induction false} SplitNone(s: string, sep: char)
    requires sep !in s
    ensures Split(s, sep) == [s]
  {
    if s != [] {
      SplitNone(s[1..], sep);
      assert [s[0]] + s[1..] == s;
    }
  }

  lemma {:induction false} SplitFirst(a: string, b: string, sep: char)
    requires sep !in a
    ensures Split(a + [sep] + b, sep) == [a] + Split(b, sep)
  {
    var s := a + [sep] + b;
    if a == [] {
      assert s[1..] == b;
    } else {
      SplitFirst(a[1..], b, sep);
      assert s[1..] == a[1..] + [sep] + b;
      var rest := [a[1..]] + Split(b, sep);
      assert [a[0]] + a[1..] == a && rest[1..] == Split(b, sep);
    }
  }

  lemma {:induction false} SplitOfJoin(parts: seq<string>, sep: char)
    requires parts != [] && forall i | 0 <= i < |parts| :: sep !in parts[i]
    ensures Split(Join(parts, sep), sep) == parts
  {
    if |parts| == 1 {
      SplitNone(parts[0], sep);
    } else {
      SplitOfJoin(parts[1..], sep);
      SplitFirst(parts[0], Join(parts[1..], sep), sep);
      assert [parts[0]] + parts[1..] == parts;
    }
  }

  // ----- entries

  datatype Entry = Entry(allow: bool, entity: string)

  /** Entities are not empty and hold neither separator. */
  predicate ValidEntry(e: Entry) {
    e.entity != [] && ',' !in e.entity && ':' !in e.entity
  }

  function Print(e: Entry): string {
    (if e.allow then "allow" else "deny") + ":" + e.entity
  }

  function PrintEach(es: seq<Entry>): (r: seq<string>)
    ensures |r| == |es|
    ensures forall i | 0 <= i < |es| :: r[i] == Print(es[i])
  {
    seq(|es|, i requires 0 <= i < |es| => Print(es[i]))
  }

  function PrintAll(es: seq<Entry>): string
    requires es != []
  {
    Join(PrintEach(es), ',')
  }

  /** One comma-separated piece, as the parser reads it. */
  function ParseEntry(text: string): Option<Entry> {
    var parts := Split(text, ':');
    if |parts| != 2 || parts[1] == [] then None
    else if parts[0] == "allow" then Some(Entry(true, parts[1]))
    else if parts[0] == "deny" then Some(Entry(false, parts[1]))
    else None
  }

  function ParseFrom(texts: seq<string>, known: map<string, bool>): Option<map<string, bool>>
    decreases |texts|
  {
    if texts == [] then Some(known)
    else
      match ParseEntry(texts[0])
      case None => None
      case Some(e) => ParseFrom(texts[1..], known[e.entity := e.allow])
  }

  function Parse(text: string): Option<map<string, bool>> {
    ParseFrom(Split(text, ','), map[])
  }

  /** Later entries for an entity replace earlier ones. */
  function Entries(es: seq<Entry>, known: map<string, bool>): map<string, bool> {
    if es == [] then known else Entries(es[1..], known[es[0].entity := es[0].allow])
  }

  /** The map gives each listed entity the value of its last entry, and no other entity one. */
  ghost predicate LastWins(m: map<string, bool>, es: seq<Entry>) {
    && (forall x :: x in m <==> exists i :: 0 <= i < |es| && es[i].entity == x)
    && forall i | 0 <= i < |es| && (forall j | i < j < |es| :: es[j].entity != es[i].entity) ::
         es[i].entity in m && m[es[i].entity] == es[i].allow
  }

  // ----- one piece

  lemma PrintedParses(e: Entry)
    requires ValidEntry(e)
    ensures ParseEntry(Print(e)) == Some(e) && ',' !in Print(e)
  {
    var word := if e.allow then "allow" else "deny";
    assert Print(e) == word + [':'] + e.entity;
    SplitFirst(word, e.entity, ':');
    SplitNone(e.entity, ':');
  }

  /** A piece without commas is read exactly when it is the printed form of a valid entry. */
  lemma ParsedWasPrinted(text: string)
    requires ',' !in text && ParseEntry(text).Some?
    ensures var e := ParseEntry(text).value; ValidEntry(e) && text == Print(e)
  {
    var parts, e := Split(text, ':'), ParseEntry(text).value;
    JoinOfSplit(text, ':');
    assert Join(parts, ':') == parts[0] + [':'] + Join(parts[1..], ':');
    assert text == parts[0] + [':'] + parts[1];
    forall c | c in e.entity ensures c in text {
      var k :| 0 <= k < |parts[1]| && parts[1][k] == c;
      assert text[|parts[0]| + 1 + k] == c;
    }
  }

  /** What a printed list of entries looks like. */
  lemma PrintedForm(es: seq<Entry>)
    requires es != []
    ensures var first := (if es[0].allow then "allow:" else "deny:") + es[0].entity;
      PrintAll(es) == if |es| == 1 then first else first + "," + PrintAll(es[1..])
  {
    assert PrintEach(es)[1..] == PrintEach(es[1..]);
    assert Print(es[0]) == (if es[0].allow then "allow:" else "deny:") + es[0].entity;
  }

  // ----- whole texts

  lemma {:induction false} ParseFromPrinted(es: seq<Entry>, known: map<string, bool>)
    requires forall i | 0 <= i < |es| :: ValidEntry(es[i])
    ensures ParseFrom(PrintEach(es), known) == Some(Entries(es, known))
    decreases |es|
  {
    if es != [] {
      PrintedParses(es[0]);
      assert PrintEach(es)[1..] == PrintEach(es[1..]);
      ParseFromPrinted(es[1..], known[es[0].entity := es[0].allow]);
    }
  }

  lemma {:induction false} EntriesLastWins(es: seq<Entry>, known: map<string, bool>, x: string)
    ensures var m := Entries(es, known);
      && (x in m <==> x in known || exists i :: 0 <= i < |es| && es[i].entity == x)
      && (forall i | 0 <= i < |es| && es[i].entity == x && (forall j | i < j < |es| :: es[j].entity != x) ::
            x in m && m[x] == es[i].allow)
      && ((forall i | 0 <= i < |es| :: es[i].entity != x) && x in known ==> x in m && m[x] == known[x])
  {
    if es != [] {
      var rest := es[1..];
      EntriesLastWins(rest, known[es[0].entity := es[0].allow], x);
      assert forall i | 1 <= i < |es| :: es[i] == rest[i - 1];
      assert forall j | 0 <= j < |rest| :: rest[j] == es[j + 1];
    }
  }

  /** Parsing the printed form of a list of entries gives the map in which the last entry for
      each entity wins. */
  lemma RoundTrip(es: seq<Entry>)
    requires es != [] && forall i | 0 <= i < |es| :: ValidEntry(es[i])
    ensures Parse(PrintAll(es)).Some? && LastWins(Parse(PrintAll(es)).value, es)
  {
    forall i | 0 <= i < |es| ensures ',' !in PrintEach(es)[i] {
      PrintedParses(es[i]);
    }
    SplitOfJoin(PrintEach(es), ',');
    ParseFromPrinted(es, map[]);
    forall x ensures var m := Entries(es, map[]);
      && (x in m <==> exists i :: 0 <= i < |es| && es[i].entity == x)
      && forall i | 0 <= i < |es| && es[i].entity == x && (forall j | i < j < |es| :: es[j].entity != x) ::
           x in m && m[x] == es[i].allow
    {
      EntriesLastWins(es, map[], x);
    }
  }

  lemma PrintEachCons(e: Entry, es: seq<Entry>)
    ensures PrintEach([e] + es) == [Print(e)] + PrintEach(es)
  {
  }

  /** The entries that the pieces are the printed forms of. */
  lemma {:induction false} PrintedFrom(texts: seq<string>, known: map<string, bool>) returns (es: seq<Entry>)
    requires forall i | 0 <= i < |texts| :: ',' !in texts[i]
    requires ParseFrom(texts, known).Some?
    ensures PrintEach(es) == texts && forall i | 0 <= i < |es| :: ValidEntry(es[i])
    decreases |texts|
  {
    hide Print, ParseEntry, ValidEntry;
    if texts == [] {
      es := [];
    } else {
      hide PrintEach;
      ParsedWasPrinted(texts[0]);
      var e := ParseEntry(texts[0]).value;
      var rest := PrintedFrom(texts[1..], known[e.entity := e.allow]);
      es := [e] + rest;
      PrintEachCons(e, rest);
      assert [texts[0]] + texts[1..] == texts;
    }
  }

  /** The parser accepts exactly the comma-joined non-empty lists of valid entries. */
  lemma ParseAcceptsIff(text: string)
    ensures Parse(text).Some? <==>
      exists es: seq<Entry> :: es != [] && (forall i | 0 <= i < |es| :: ValidEntry(es[i])) && text == PrintAll(es)
  {
    if Parse(text).Some? {
      JoinOfSplit(text, ',');
      var es := PrintedFrom(Split(text, ','), map[]);
      assert |PrintEach(es)| == |es|;
      assert text == PrintAll(es);
    }
    forall es: seq<Entry> | es != [] && (forall i | 0 <= i < |es| :: ValidEntry(es[i])) && text == PrintAll(es)
      ensures Parse(text).Some?
    {
      RoundTrip(es);
    }
  }
}
