/** The star rating widget (src/components/StarRating.jsx): `totalStars`
    stars valued 1..totalStars, a click that sets the rating or clears it
    when the clicked star is the current rating, and the parent's `onRate`
    told of every new rating. */
module StarRating {

  /** `handleClick(k)`'s new rating. */
  function Clicked(rating: int, k: int): int {
    if k == rating then 0 else k
  }

  /** Clicking the current rating clears it, clicking another star sets it,
      and a second click on the same star clears what the first set. Every
      rating in 0..totalStars stays there under clicks on the stars. */
  lemma ClickedSpec(rating: int, k: int, totalStars: int)
    ensures Clicked(rating, k) == 0 <==> k == rating || k == 0
    ensures k != rating ==> Clicked(rating, k) == k
    ensures k != rating ==> Clicked(Clicked(rating, k), k) == 0
    ensures 0 <= rating <= totalStars && 1 <= k <= totalStars ==> 0 <= Clicked(rating, k) <= totalStars
  {
  }

  /** `hoverRating || rating`: the hover value unless it is 0. */
  function Shown(hoverRating: int, rating: int): int {
    if hoverRating != 0 then hoverRating else rating
  }

  /** Star `k` is drawn filled. */
  predicate Filled(k: int, hoverRating: int, rating: int) {
    k <= Shown(hoverRating, rating)
  }

  /** `[...Array(totalStars)].map(...)`: the value of each star and whether it is filled, left to right. */
  function Stars(totalStars: nat, hoverRating: int, rating: int): (stars: seq<(int, bool)>)
    ensures |stars| == totalStars
  {
    seq(totalStars, i requires 0 <= i < totalStars => (i + 1, Filled(i + 1, hoverRating, rating)))
  }

  /** The number of stars drawn filled. */
  function FilledCount(stars: seq<(int, bool)>): nat {
    if stars == [] then 0 else (if stars[|stars| - 1].1 then 1 else 0) + FilledCount(stars[..|stars| - 1])
  }

  /** The stars are valued 1..totalStars in order; star k is filled exactly
      when k is at most the hover value if there is one and the rating
      otherwise; so with no hover the filled stars are the first `rating`
      of them. */
  lemma StarsSpec(totalStars: nat, hoverRating: int, rating: int)
    ensures forall i :: 0 <= i < totalStars ==> Stars(totalStars, hoverRating, rating)[i].0 == i + 1
    ensures forall i :: 0 <= i < totalStars ==>
      (Stars(totalStars, hoverRating, rating)[i].1 <==> i + 1 <= (if hoverRating != 0 then hoverRating else rating))
    ensures hoverRating == 0 && 0 <= rating <= totalStars ==> FilledCount(Stars(totalStars, hoverRating, rating)) == rating
  {
    if hoverRating == 0 && 0 <= rating <= totalStars {
      FilledPrefix(totalStars, rating);
    }
  }

  lemma {:induction false} FilledPrefix(n: nat, rating: int)
    requires 0 <= rating
    ensures FilledCount(Stars(n, 0, rating)) == if rating <= n then rating else n
  {
    if n > 0 {
      assert Stars(n, 0, rating)[..n - 1] == Stars(n - 1, 0, rating);
      FilledPrefix(n - 1, rating);
    }
  }

  class Widget {
    const totalStars: nat
    /** Whether the parent passed `onRate`. */
    const hasOnRate: bool
    var rating: int
    /** Never changed: `Star` does not pass `onMouseEnter`/`onMouseLeave` on to the svg. */
    var hoverRating: int
    /** The values given to `onRate`, oldest first. */
    var rated: seq<int>

    /** Mounting with `initialRating`; `totalStars` defaults to 10. */
    constructor (totalStars: nat, initialRating: int, hasOnRate: bool)
      ensures this.totalStars == totalStars && this.hasOnRate == hasOnRate
      ensures rating == initialRating && hoverRating == 0 && rated == []
    {
      this.totalStars := totalStars;
      this.hasOnRate := hasOnRate;
      rating := initialRating;
      hoverRating := 0;
      rated := [];
    }

    /** `handleClick(newRating)`. */
    method HandleClick(newRating: int)
      modifies this
      ensures rating == Clicked(old(rating), newRating)
      ensures rated == if hasOnRate then old(rated) + [rating] else old(rated)
      ensures hoverRating == old(hoverRating)
    {
      var finalRating := if newRating == rating then 0 else newRating;
      rating := finalRating;
      if hasOnRate {
        rated := rated + [finalRating];
      }
    }
  }
}
