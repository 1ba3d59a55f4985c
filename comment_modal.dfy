/** The comment dialog (src/components/CommentModal.jsx): a draft comment
    and rating, reset from the city whenever the dialog opens or shows
    another city, saved through `onSave` and then closed, or closed
    without saving. */
module CommentModal {
  import opened Js

  /** The part of `cityData` the dialog reads. */
  datatype City = City(name: string, comment: Option<string>, rating: Option<int>)

  /** `cityData.comment ?? ''`. */
  function DraftComment(c: City): string {
    if c.comment.Some? then c.comment.value else ""
  }

  /** `cityData.rating ?? 0`. */
  function DraftRating(c: City): int {
    if c.rating.Some? then c.rating.value else 0
  }

  /** The counter's text, `${comment.length} / 200`. */
  function CounterText(comment: string): string {
    NatToString(Length(comment)) + " / 200"
  }

  /** The counter is flagged when the draft is longer than 200 UTF-16 units. */
  predicate Exceeded(comment: string) {
    Length(comment) > 200
  }

  /** A flagged draft has more than 100 characters, and one of more than 200
      characters is always flagged; for text without astral characters the
      flag is simply "more than 200 characters". The counter ends in " / 200". */
  lemma CounterSpec(comment: string)
    ensures Exceeded(comment) ==> |comment| > 100
    ensures |comment| > 200 ==> Exceeded(comment)
    ensures (forall i :: 0 <= i < |comment| ==> (comment[i] as int) < 0x10000) ==> (Exceeded(comment) <==> |comment| > 200)
    ensures var t := CounterText(comment); |t| >= 7 && t[|t| - 6..] == " / 200"
  {
    if forall i :: 0 <= i < |comment| ==> (comment[i] as int) < 0x10000 {
      Utf16OfBmp(comment);
    }
  }

  /** The dependencies of the reset effect: `[isOpen, cityData?.name]`. */
  function Deps(isOpen: bool, city: Option<City>): (bool, Option<string>) {
    (isOpen, if city.Some? then Some(city.value.name) else None)
  }

  class Dialog {
    var isOpen: bool
    var city: Option<City>
    var comment: string
    var rating: int
    /** The dependencies the effect last ran with; None before the first render. */
    var lastDeps: Option<(bool, Option<string>)>
    /** The `onSave` calls, oldest first. */
    var saves: seq<(string, string, int)>
    /** How many times `onClose` was called. */
    var closes: nat

    constructor ()
      ensures !isOpen && city == None && comment == "" && rating == 0
      ensures lastDeps == None && saves == [] && closes == 0
    {
      isOpen := false;
      city := None;
      comment := "";
      rating := 0;
      lastDeps := None;
      saves := [];
      closes := 0;
    }

    /** The dialog is on screen. */
    predicate Shown()
      reads this
    {
      isOpen && city.Some?
    }

    /** A render with new props. The effect runs when its dependencies
        changed (or on the first render), and resets the draft when the
        dialog is open on a city. */
    method Render(open: bool, cityData: Option<City>)
      modifies this
      ensures isOpen == open && city == cityData
      ensures lastDeps == Some(Deps(open, cityData))
      ensures var reset := old(lastDeps) != Some(Deps(open, cityData)) && open && cityData.Some?;
              && comment == (if reset then DraftComment(cityData.value) else old(comment))
              && rating == (if reset then DraftRating(cityData.value) else old(rating))
      ensures saves == old(saves) && closes == old(closes)
    {
      isOpen := open;
      city := cityData;
      var deps := (open, if cityData.Some? then Some(cityData.value.name) else None);
      if lastDeps != Some(deps) {
        if open && cityData.Some? {
          comment := if cityData.value.comment.Some? then cityData.value.comment.value else "";
          rating := if cityData.value.rating.Some? then cityData.value.rating.value else 0;
        }
        lastDeps := Some(deps);
      }
    }

    /** The textarea's `onChange`. */
    method SetComment(value: string)
      modifies this
      ensures comment == value
      ensures isOpen == old(isOpen) && city == old(city) && rating == old(rating)
      ensures lastDeps == old(lastDeps) && saves == old(saves) && closes == old(closes)
    {
      comment := value;
    }

    /** The star widget's `onRate`: only the draft rating changes. */
    method OnRate(newRating: int)
      modifies this
      ensures rating == newRating
      ensures isOpen == old(isOpen) && city == old(city) && comment == old(comment)
      ensures lastDeps == old(lastDeps) && saves == old(saves) && closes == old(closes)
    {
      rating := newRating;
    }

    /** `handleSave`: nothing while closed or without a city; otherwise one
        `onSave` with the name and the draft, then one `onClose`. */
    method HandleSave()
      modifies this
      ensures isOpen == old(isOpen) && city == old(city) && comment == old(comment)
      ensures rating == old(rating) && lastDeps == old(lastDeps)
      ensures !old(Shown()) ==> saves == old(saves) && closes == old(closes)
      ensures old(Shown()) ==> saves == old(saves) + [(city.value.name, comment, rating)] && closes == old(closes) + 1
    {
      if !isOpen || city.None? {
        return;
      }
      saves := saves + [(city.value.name, comment, rating)];
      closes := closes + 1;
    }

    /** The close button: `onClose` without `onSave`. */
    method HandleCloseWithoutSave()
      modifies this
      ensures closes == old(closes) + 1 && saves == old(saves)
      ensures isOpen == old(isOpen) && city == old(city) && comment == old(comment)
      ensures rating == old(rating) && lastDeps == old(lastDeps)
    {
      closes := closes + 1;
    }

    /** A mousedown or touch: one outside the dialog closes it without saving;
        while the dialog is not on screen there is nothing to be outside of. */
    method MouseDown(inside: bool)
      modifies this
      ensures closes == (if Shown() && !inside then old(closes) + 1 else old(closes))
      ensures saves == old(saves)
      ensures isOpen == old(isOpen) && city == old(city) && comment == old(comment)
      ensures rating == old(rating) && lastDeps == old(lastDeps)
    {
      if isOpen && city.Some? && !inside {
        HandleCloseWithoutSave();
      }
    }
  }
}
