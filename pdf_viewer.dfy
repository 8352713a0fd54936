/** frontend/components/pdf/pdf-viewer.tsx: the viewer's page navigation,
    width breakpoints and canvas colours. */
module PdfViewer {
  import opened Wrappers
  import opened Strings

  // ---------------------------------------------------------------------
  // Width breakpoints
  // ---------------------------------------------------------------------

  /** The page scale: `Unit` is the initial 1; `handleResize` picks one of
      the other three (0.6, 0.9 and 1.1). */
  datatype Scale = Unit | Small | Medium | Large

  /** `handleResize`'s choice for a window width. */
  function ScaleFor(width: int): (r: Scale)
    ensures r == Small <==> width < 640
    ensures r == Medium <==> 640 <= width < 1024
    ensures r == Large <==> 1024 <= width
    ensures r != Unit
  {
    if width < 640 then Small else if width < 1024 then Medium else Large
  }

  function Rank(s: Scale): nat {
    match s
    case Unit => 0
    case Small => 1
    case Medium => 2
    case Large => 3
  }

  /** A wider window never gets a smaller scale. */
  lemma ScaleMonotone(a: int, b: int)
    requires a <= b
    ensures Rank(ScaleFor(a)) <= Rank(ScaleFor(b))
  {
  }

  // ---------------------------------------------------------------------
  // Navigation
  // ---------------------------------------------------------------------

  /** `totalNumPages` as the `>=` comparison reads it: `null` is 0. */
  function TotalOrZero(total: Option<int>): int {
    if total.None? then 0 else total.value
  }

  /** The previous button's `disabled`. */
  function PreviousDisabled(page: int): (r: bool)
    ensures r <==> page <= 1
  {
    page <= 1
  }

  /** The next button's `disabled`: before the document loads the total
      is `null`, so any page from 0 up has next disabled. */
  function NextDisabled(page: int, total: Option<int>): (r: bool)
    ensures total.None? ==> (r <==> page >= 0)
    ensures total.Some? ==> (r <==> page >= total.value)
  {
    page >= TotalOrZero(total)
  }

  /** A button the user can press. */
  datatype Button = PreviousButton | NextButton

  /** The page after a click: a disabled button fires nothing, an enabled
      one moves the page by one. */
  function Click(page: int, total: Option<int>, b: Button): (r: int)
    ensures b == PreviousButton ==> r == if page <= 1 then page else page - 1
    ensures b == NextButton ==> r == if page >= TotalOrZero(total) then page else page + 1
  {
    match b
    case PreviousButton => if PreviousDisabled(page) then page else page - 1
    case NextButton => if NextDisabled(page, total) then page else page + 1
  }

  function Clicks(page: int, total: Option<int>, bs: seq<Button>): (r: int)
    ensures page - |bs| <= r <= page + |bs|
    decreases |bs|
  {
    if bs == [] then page else Clicks(Click(page, total, bs[0]), total, bs[1..])
  }

  /** Pages the viewer can show: from 1 up to the total, or just page 1
      while there is no positive total. */
  predicate InRange(page: int, total: Option<int>): (r: bool)
    ensures total.Some? && total.value >= 1 ==> (r <==> 1 <= page <= total.value)
    ensures (total.None? || total.value < 1) ==> (r <==> page == 1)
  {
    1 <= page && (page == 1 || page <= TotalOrZero(total))
  }

  /** Clicking only the buttons that are enabled keeps the page within
      1 and the total, however many clicks there are. */
  lemma {:induction false} ClicksStayInRange(page: int, total: Option<int>, bs: seq<Button>)
    requires InRange(page, total)
    ensures InRange(Clicks(page, total, bs), total)
    decreases |bs|
  {
    if bs != [] {
      var p := Click(page, total, bs[0]);
      assert InRange(p, total);
      ClicksStayInRange(p, total, bs[1..]);
    }
  }

  /** Before the document loads, neither button is enabled at page 1. */
  lemma NothingEnabledBeforeLoad(bs: seq<Button>)
    ensures Clicks(1, None, bs) == 1
    decreases |bs|
  {
    if bs != [] {
      NothingEnabledBeforeLoad(bs[1..]);
    }
  }

  /** From page 1 of an n-page document, n - 1 clicks on next reach the
      last page, where next is disabled. */
  lemma {:induction false} NextReachesLastPage(page: int, n: int, k: nat)
    requires 1 <= page <= n && k == n - page
    ensures Clicks(page, Some(n), seq(k, i => NextButton)) == n
    ensures NextDisabled(n, Some(n))
    decreases k
  {
    var bs := seq(k, i => NextButton);
    if k > 0 {
      assert bs[1..] == seq(k - 1, i => NextButton);
      NextReachesLastPage(page + 1, n, k - 1);
    }
  }

  /** The `current / total` caption, with JavaScript's `||` falling back on
      0 and `null`. */
  function PageCaption(page: int, total: Option<int>): (r: string)
    ensures page != 0 && total.Some? && total.value != 0 ==>
              r == IntToString(page) + " / " + IntToString(total.value)
    ensures page != 0 && (total.None? || total.value == 0) ==> r == IntToString(page) + " / --"
    ensures page == 0 && total.Some? && total.value != 0 ==> r == "1 / " + IntToString(total.value)
    ensures page == 0 && (total.None? || total.value == 0) ==> r == "-- / --"
  {
    var loaded := total.Some? && total.value != 0;
    (if page != 0 then IntToString(page) else if loaded then "1" else "--")
    + " / " + (if loaded then IntToString(total.value) else "--")
  }

  // ---------------------------------------------------------------------
  // Colours
  // ---------------------------------------------------------------------

  /** A canvas background and a text-layer colour; "" leaves the text
      colour to the page. */
  datatype Colours = Colours(canvas: string, text: string)

  /** One entry of `themeVariants`. */
  datatype ThemeVariant = ThemeVariant(bg: string, text: string)

  /** The five swatches of the colour picker: default, black, lime, green
      and amber. */
  const ThemeVariants: seq<ThemeVariant> := [
    ThemeVariant("#ffffff", ""),
    ThemeVariant("#171717", "#ffffff"),
    ThemeVariant("#ecfcca", ""),
    ThemeVariant("#dcfce7", ""),
    ThemeVariant("#fef3c6", "")
  ]

  /** The swatches are keyed by `bg`, so the backgrounds must differ. */
  lemma SwatchKeysDistinct()
    ensures forall i, j :: 0 <= i < j < |ThemeVariants| ==> ThemeVariants[i].bg != ThemeVariants[j].bg
  {
    var v := ThemeVariants;
    assert v[0].bg[1] == 'f' && v[1].bg[1] == '1' && v[2].bg[1] == 'e' && v[3].bg[1] == 'd' && v[4].bg[1] == 'f';
    assert v[2].bg[2] == 'c' && v[4].bg[2] == 'e';
  }

  /** The colours the theme effect (and the initial state) derives from the
      page theme: only "dark" gives the dark canvas. */
  function ThemeColours(theme: Option<string>): (c: Colours)
    ensures theme == Some("dark") ==> c == Colours("#171717", "#ffffff")
    ensures theme != Some("dark") ==> c == Colours("#ffffff", "")
  {
    if theme == Some("dark") then Colours("#171717", "#ffffff") else Colours("#ffffff", "")
  }

  /** The theme's colours are those of a swatch: black for dark, the
      default for every other theme. */
  lemma ThemeColoursAreSwatches(theme: Option<string>)
    ensures var c := ThemeColours(theme);
            exists i :: 0 <= i < |ThemeVariants| && ThemeVariants[i] == ThemeVariant(c.canvas, c.text)
  {
    if theme == Some("dark") {
      assert ThemeVariants[1] == ThemeVariant("#171717", "#ffffff");
    } else {
      assert ThemeVariants[0] == ThemeVariant("#ffffff", "");
    }
  }

  /** The theme the toggle asks for: light from dark, dark from anything
      else (including no theme yet). */
  function ToggledTheme(theme: Option<string>): (r: string)
    ensures r == "light" <==> theme == Some("dark")
    ensures r == "dark" <==> theme != Some("dark")
  {
    if theme == Some("dark") then "light" else "dark"
  }

  /** Toggling flips the canvas between the dark and the light colours,
      and two toggles come back to dark or to light. */
  lemma ToggleFlipsColours(theme: Option<string>)
    ensures (ThemeColours(Some(ToggledTheme(theme))) == Colours("#171717", "#ffffff"))
            <==> theme != Some("dark")
    ensures ToggledTheme(Some(ToggledTheme(theme))) == if theme == Some("dark") then "dark" else "light"
  {
    assert "light" != "dark" by { assert "light"[0] != "dark"[0]; }
  }

  // ---------------------------------------------------------------------
  // The component's state
  // ---------------------------------------------------------------------

  /** The viewer's state variables, with the page theme it reads. */
  class Viewer {
    var theme: Option<string>
    var canvasTheme: string
    var textColor: string
    var totalNumPages: Option<int>
    var pageNumber: int
    var containerWidth: Scale

    /** The page shown is in range for the document. */
    predicate Valid()
      reads this
    {
      InRange(pageNumber, totalNumPages)
    }

    /** First render: colours from the theme, no total, page 1, scale 1.
        The initial-state callbacks are written out as the component has
        them; `ThemeColours` states what they compute. */
    constructor (theme: Option<string>)
      ensures this.theme == theme
      ensures Colours(canvasTheme, textColor) == ThemeColours(theme)
      ensures totalNumPages.None? && pageNumber == 1 && containerWidth == Unit
      ensures Valid()
    {
      this.theme := theme;
      canvasTheme := if theme == Some("dark") then "#171717" else "#ffffff";
      textColor := if theme == Some("dark") then "#ffffff" else "";
      totalNumPages := None;
      pageNumber := 1;
      containerWidth := Unit;
    }

    /** `onDocumentLoadSuccess`: record the page count, go to page 1. */
    method OnDocumentLoadSuccess(numPages: int)
      modifies this
      ensures totalNumPages == Some(numPages) && pageNumber == 1
      ensures theme == old(theme) && canvasTheme == old(canvasTheme) && textColor == old(textColor)
      ensures containerWidth == old(containerWidth)
      ensures Valid()
    {
      totalNumPages := Some(numPages);
      pageNumber := 1;
    }

    /** `changePage`: move by the offset, with no clamping. */
    method ChangePage(offset: int)
      modifies this
      ensures pageNumber == old(pageNumber) + offset
      ensures totalNumPages == old(totalNumPages) && theme == old(theme)
      ensures canvasTheme == old(canvasTheme) && textColor == old(textColor)
      ensures containerWidth == old(containerWidth)
    {
      pageNumber := pageNumber + offset;
    }

    method PreviousPage()
      modifies this
      ensures pageNumber == old(pageNumber) - 1
      ensures totalNumPages == old(totalNumPages) && theme == old(theme)
      ensures canvasTheme == old(canvasTheme) && textColor == old(textColor)
      ensures containerWidth == old(containerWidth)
    {
      ChangePage(-1);
    }

    method NextPage()
      modifies this
      ensures pageNumber == old(pageNumber) + 1
      ensures totalNumPages == old(totalNumPages) && theme == old(theme)
      ensures canvasTheme == old(canvasTheme) && textColor == old(textColor)
      ensures containerWidth == old(containerWidth)
    {
      ChangePage(1);
    }

    /** A click on one of the two buttons: the browser fires `onClick` only
        when the button is not disabled. */
    method ClickButton(b: Button)
      requires Valid()
      modifies this
      ensures pageNumber == Click(old(pageNumber), totalNumPages, b)
      ensures totalNumPages == old(totalNumPages) && theme == old(theme)
      ensures canvasTheme == old(canvasTheme) && textColor == old(textColor)
      ensures containerWidth == old(containerWidth)
      ensures Valid()
    {
      match b
      case PreviousButton =>
        if !PreviousDisabled(pageNumber) { PreviousPage(); }
      case NextButton =>
        if !NextDisabled(pageNumber, totalNumPages) { NextPage(); }
    }

    /** `handleResize`, for the current window width. The `if` chain is the
        component's own; `ScaleFor` is its specification. */
    method HandleResize(width: int)
      modifies this
      ensures containerWidth == ScaleFor(width)
      ensures pageNumber == old(pageNumber) && totalNumPages == old(totalNumPages) && theme == old(theme)
      ensures canvasTheme == old(canvasTheme) && textColor == old(textColor)
    {
      if width < 640 {
        containerWidth := Small;
      } else if width < 1024 {
        containerWidth := Medium;
      } else {
        containerWidth := Large;
      }
    }

    /** The theme effect, run when the page theme changes. The branch is
        the effect's own; `ThemeColours` is its specification. */
    method OnThemeChange(newTheme: Option<string>)
      modifies this
      ensures theme == newTheme
      ensures Colours(canvasTheme, textColor) == ThemeColours(newTheme)
      ensures pageNumber == old(pageNumber) && totalNumPages == old(totalNumPages)
      ensures containerWidth == old(containerWidth)
    {
      theme := newTheme;
      if newTheme == Some("dark") {
        canvasTheme := "#171717";
        textColor := "#ffffff";
      } else {
        canvasTheme := "#ffffff";
        textColor := "";
      }
    }

    /** The sun/moon toggle: `setTheme`, then the theme effect. */
    method ToggleTheme()
      modifies this
      ensures theme == Some(ToggledTheme(old(theme)))
      ensures Colours(canvasTheme, textColor) == ThemeColours(theme)
      ensures pageNumber == old(pageNumber) && totalNumPages == old(totalNumPages)
      ensures containerWidth == old(containerWidth)
    {
      var next := if theme == Some("dark") then "light" else "dark";
      OnThemeChange(Some(next));
    }

    /** A click on swatch `i`: its background and text colour. */
    method PickSwatch(i: nat)
      requires i < |ThemeVariants|
      modifies this
      ensures canvasTheme == ThemeVariants[i].bg && textColor == ThemeVariants[i].text
      ensures pageNumber == old(pageNumber) && totalNumPages == old(totalNumPages) && theme == old(theme)
      ensures containerWidth == old(containerWidth)
    {
      canvasTheme := ThemeVariants[i].bg;
      textColor := ThemeVariants[i].text;
    }
  }
}
