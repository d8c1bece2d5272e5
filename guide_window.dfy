/** The page navigation of the in-app user guide: nine pages, "next" and "back" buttons. */
module Guide {

  datatype Page = ONE | TWO | THREE | FOUR | FIVE | SIX | SEVEN | EIGHT | NINE

  /** Position of a page in declaration order, 1 to 9. */
  function Index(p: Page): (n: nat)
    ensures 1 <= n <= 9
  {
    match p
    case ONE => 1 case TWO => 2 case THREE => 3 case FOUR => 4 case FIVE => 5
    case SIX => 6 case SEVEN => 7 case EIGHT => 8 case NINE => 9
  }

  lemma IndexInjective(p: Page, q: Page)
    ensures Index(p) == Index(q) <==> p == q
  {
  }

  /** The page shown after pressing "next" on page `p`. */
  function NextPage(p: Page): (r: Page)
    ensures Index(p) <= 7 ==> Index(r) == Index(p) + 1
    ensures Index(p) >= 8 ==> r == p
  {
    match p
    case ONE => TWO
    case TWO => THREE
    case THREE => FOUR
    case FOUR => FIVE
    case FIVE => SIX
    case SIX => SEVEN
    case SEVEN => EIGHT
    case _ => p
  }

  /** The page shown after pressing "back" on page `p`. */
  function BackPage(p: Page): (r: Page)
    ensures 2 <= Index(p) <= 8 ==> Index(r) + 1 == Index(p)
    ensures p == ONE || p == NINE ==> r == p
  {
    match p
    case ONE => p
    case TWO => ONE
    case THREE => TWO
    case FOUR => THREE
    case FIVE => FOUR
    case SIX => FIVE
    case SEVEN => SIX
    case EIGHT => SEVEN
    case NINE => p
  }

  /** "Back" undoes "next" on every page from which "next" moves. */
  lemma BackUndoesNext(p: Page)
    requires Index(p) <= 7
    ensures BackPage(NextPage(p)) == p
  {
    IndexInjective(BackPage(NextPage(p)), p);
  }

  /** "Next" undoes "back" on every page from which "back" moves. */
  lemma NextUndoesBack(p: Page)
    requires 2 <= Index(p) <= 8
    ensures NextPage(BackPage(p)) == p
  {
    IndexInjective(NextPage(BackPage(p)), p);
  }

  datatype Button = Next | Back

  /** The page reached from `p` by pressing the buttons in `presses` in order. */
  function Navigate(p: Page, presses: seq<Button>): (r: Page)
    decreases |presses|
  {
    if presses == [] then p
    else
      var q := if presses[0] == Next then NextPage(p) else BackPage(p);
      Navigate(q, presses[1..])
  }

  /** Neither button leads to page NINE from another page. */
  lemma StepAvoidsNine(p: Page, b: Button)
    requires p != NINE
    ensures (if b == Next then NextPage(p) else BackPage(p)) != NINE
  {
  }

  /** Page NINE is unreachable: no sequence of presses leads there from any other page. */
  lemma {:induction false} NineUnreachable(p: Page, presses: seq<Button>)
    requires p != NINE
    ensures Navigate(p, presses) != NINE
    decreases |presses|
  {
    if presses != [] {
      StepAvoidsNine(p, presses[0]);
      var q := if presses[0] == Next then NextPage(p) else BackPage(p);
      NineUnreachable(q, presses[1..]);
    }
  }

  /** The guide window; only the page it currently shows is modelled. */
  class GuideWindow {
    var currentPage: Page

    /** A new window opens on the first page. */
    constructor ()
      ensures currentPage == ONE
    {
      currentPage := ONE;
    }

    method HandleNext()
      modifies this
      ensures currentPage == NextPage(old(currentPage))
    {
      match currentPage {
        case ONE => currentPage := TWO;
        case TWO => currentPage := THREE;
        case THREE => currentPage := FOUR;
        case FOUR => currentPage := FIVE;
        case FIVE => currentPage := SIX;
        case SIX => currentPage := SEVEN;
        case SEVEN => currentPage := EIGHT;
        case _ =>
      }
    }

    method HandleBack()
      modifies this
      ensures currentPage == BackPage(old(currentPage))
    {
      match currentPage {
        case ONE =>
        case TWO => currentPage := ONE;
        case THREE => currentPage := TWO;
        case FOUR => currentPage := THREE;
        case FIVE => currentPage := FOUR;
        case SIX => currentPage := FIVE;
        case SEVEN => currentPage := SIX;
        case EIGHT => currentPage := SEVEN;
        case _ =>
      }
    }
  }
}
