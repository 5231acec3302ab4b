/** The closed list of genres a book may have (VALID_GENRES). */
module Genres {
  import opened Options

  datatype Genre = Fiction | NonFiction | Mystery | Romance | SciFi | Biography

  /** The exact text of each genre as the service accepts and stores it. */
  function Name(g: Genre): string {
    match g
    case Fiction => "Fiction"
    case NonFiction => "Non-Fiction"
    case Mystery => "Mystery"
    case Romance => "Romance"
    case SciFi => "Sci-Fi"
    case Biography => "Biography"
  }

  /** VALID_GENRES.includes(s), giving the genre found: a case-sensitive exact
      match of one of the six names. */
  function Parse(s: string): (r: Option<Genre>)
    ensures r.Some? ==> Name(r.value) == s
    ensures r.None? ==> forall g :: Name(g) != s
  {
    if s == "Fiction" then Some(Fiction)
    else if s == "Non-Fiction" then Some(NonFiction)
    else if s == "Mystery" then Some(Mystery)
    else if s == "Romance" then Some(Romance)
    else if s == "Sci-Fi" then Some(SciFi)
    else if s == "Biography" then Some(Biography)
    else None
  }

  /** Every genre name is accepted and parses back to its genre. */
  lemma ParseName(g: Genre)
    ensures Parse(Name(g)) == Some(g)
  {
    match g
    case Fiction =>
    case NonFiction => assert Name(g) != "Fiction";
    case Mystery => assert Name(g)[0] != "Fiction"[0];
    case Romance => assert Name(g)[0] != "Fiction"[0] && Name(g)[0] != "Mystery"[0];
    case SciFi => assert |Name(g)| == 6;
    case Biography => assert |Name(g)| == 9;
  }
}
