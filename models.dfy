/**
  The two records of the game: a historical event of the catalog and a player.
  An event is a value that never changes once loaded. A player is an object
  whose fields the game engine updates in place; `PlayerRecord` is the
  document the player store keeps for it.
*/
module Models {
  import opened Wrappers
  import Decimal

  /** One catalog entry: `_type` is `kind`, `event` the text to guess, `date` the year. */
  datatype HistoricalEvent = HistoricalEvent(
    id: int,
    kind: string,
    event: string,
    date: int,
    description: Option<string>,
    imagePath: Option<string>)
  {
    /** The answer shown after a round: the year, " г. - ", the event text and a full stop.
        It splits back into exactly this event's year and text. */
    function Explain(): (r: string)
      ensures ParseExplanation(r) == Some((date, event))
    {
      ExplanationRoundTrip(date, event);
      Decimal.Show(date) + Separator + event + "."
    }
  }

  const Separator := " г. - "

  /** The length of the longest prefix of `s` made of characters of an integer's text. */
  function NumeralPrefix(s: string): (k: nat)
    ensures k <= |s|
    ensures forall i :: 0 <= i < k ==> Decimal.IsNumeral(s[i])
    ensures k < |s| ==> !Decimal.IsNumeral(s[k])
  {
    if |s| > 0 && Decimal.IsNumeral(s[0]) then 1 + NumeralPrefix(s[1..]) else 0
  }

  /** Splits an explanation back into the year and the event text. */
  function ParseExplanation(s: string): (r: Option<(int, string)>)
  {
    var k := NumeralPrefix(s);
    if k + |Separator| < |s| && s[k..k + |Separator|] == Separator && s[|s| - 1] == '.' then
      match Decimal.Parse(s[..k])
      case Some(year) => Some((year, s[k + |Separator|..|s| - 1]))
      case None => None
    else None
  }

  lemma {:induction false} NumeralPrefixOfConcat(a: string, b: string)
    requires forall i :: 0 <= i < |a| ==> Decimal.IsNumeral(a[i])
    requires |b| > 0 && !Decimal.IsNumeral(b[0])
    ensures NumeralPrefix(a + b) == |a|
    decreases |a|
  {
    if |a| > 0 {
      assert (a + b)[1..] == a[1..] + b;
      NumeralPrefixOfConcat(a[1..], b);
    }
  }

  /** The text `"{} г. - {}.".format(year, text)` splits back into `year` and `text`. */
  lemma ExplanationRoundTrip(year: int, text: string)
    ensures ParseExplanation(Decimal.Show(year) + Separator + text + ".") == Some((year, text))
  {
    var shown := Decimal.Show(year);
    var rest := Separator + text + ".";
    var s := shown + Separator + text + ".";
    assert s == shown + rest;
    NumeralPrefixOfConcat(shown, rest);
    var k := |shown|;
    assert s[..k] == shown;
    assert s[k..k + |Separator|] == Separator;
    assert s[k + |Separator|..|s| - 1] == text;
  }

  /** Two events explain alike exactly when they share the year and the event text:
      the category, description and image never show. */
  lemma ExplainDependsOnlyOnDateAndEvent(e1: HistoricalEvent, e2: HistoricalEvent)
    ensures e1.Explain() == e2.Explain() <==> e1.date == e2.date && e1.event == e2.event
  {
  }

  /** The stored document of a player. */
  datatype PlayerRecord = PlayerRecord(
    id: int,
    currentEvent: Option<int>,
    guessedEvents: seq<int>,
    attempts: int,
    score: int)

  /** A player. `currentEvent` is `None` when the player is not in a round. */
  class Player {
    const id: int
    var currentEvent: Option<int>
    var guessedEvents: seq<int>
    var attempts: int
    var score: int

    /** `Player(_id=id)`: the dataclass defaults. */
    constructor (id: int)
      ensures this.id == id
      ensures currentEvent == None && guessedEvents == [] && attempts == 0 && score == 0
    {
      this.id := id;
      currentEvent := None;
      guessedEvents := [];
      attempts := 0;
      score := 0;
    }

    /** `Player(**document)`: a player built from its stored document. */
    constructor FromRecord(rec: PlayerRecord)
      ensures Record() == rec
    {
      id := rec.id;
      currentEvent := rec.currentEvent;
      guessedEvents := rec.guessedEvents;
      attempts := rec.attempts;
      score := rec.score;
    }

    /** The document saved for this player. */
    function Record(): (r: PlayerRecord)
      reads this
    {
      PlayerRecord(id, currentEvent, guessedEvents, attempts, score)
    }

    /** `in_game`: the current event holds an id, whichever id it is (0 included). */
    function InGame(): (r: bool)
      reads this
      ensures r <==> currentEvent != None
    {
      currentEvent.Some?
    }
  }
}
