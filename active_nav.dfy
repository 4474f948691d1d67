/** Active navigation highlighting of js/main.js (`setupActiveNavHighlight`):
    on every scroll, find the last section the page has scrolled to, then
    recolour the navigation links. */
module ActiveNav {
  import opened Wrappers

  /** A `.section[id]` element: its id and its `offsetTop`. */
  datatype Section = Section(id: string, top: int)

  const Lead := 100
  const HighlightColor := "var(--text-primary)"

  /** The page has scrolled to within `Lead` pixels above the section's top. */
  predicate Reached(s: Section, scroll: int) {
    scroll >= s.top - Lead
  }

  /** The index of the last section in document order that the page has reached. */
  function LastReached(sections: seq<Section>, scroll: int): (r: Option<nat>)
    ensures r.Some? ==> r.value < |sections| && Reached(sections[r.value], scroll)
    ensures r.Some? ==> forall j :: r.value < j < |sections| ==> !Reached(sections[j], scroll)
    ensures r.None? <==> forall j :: 0 <= j < |sections| ==> !Reached(sections[j], scroll)
  {
    if |sections| == 0 then None
    else if Reached(sections[|sections| - 1], scroll) then Some(|sections| - 1)
    else LastReached(sections[..|sections| - 1], scroll)
  }

  /** The id the scroll handler ends with: that of the last reached section, or `''`. */
  function ActiveId(sections: seq<Section>, scroll: int): string {
    match LastReached(sections, scroll)
    case None => ""
    case Some(k) => sections[k].id
  }

  /** Scrolling further down never moves the highlight to an earlier section. */
  lemma {:induction false} LastReachedMonotone(sections: seq<Section>, scroll: int, further: int)
    requires scroll <= further
    requires LastReached(sections, scroll).Some?
    ensures LastReached(sections, further).Some?
    ensures LastReached(sections, scroll).value <= LastReached(sections, further).value
  {
    var k := LastReached(sections, scroll).value;
    assert Reached(sections[k], further);
  }

  /** The colour a link ends with: highlighted when its href is `'#' + current`, else cleared. */
  function LinkColor(href: Option<string>, current: string): string {
    if href == Some("#" + current) then HighlightColor else ""
  }

  /** With no section reached the current id is `''`, so a link whose href is
      exactly `#` is the one that gets highlighted. */
  lemma NothingReachedHighlightsBareHash(sections: seq<Section>, scroll: int, href: Option<string>)
    requires forall j :: 0 <= j < |sections| ==> !Reached(sections[j], scroll)
    ensures LinkColor(href, ActiveId(sections, scroll)) == HighlightColor <==> href == Some("#")
  {
    assert ActiveId(sections, scroll) == "";
    assert "#" + "" == "#";
  }

  /** The first loop of the scroll handler. */
  method ScanSections(sections: seq<Section>, scroll: int) returns (current: string)
    ensures current == ActiveId(sections, scroll)
  {
    current := "";
    var i := 0;
    while i < |sections|
      invariant 0 <= i <= |sections|
      invariant current == ActiveId(sections[..i], scroll)
    {
      var sectionTop := sections[i].top;
      if scroll >= sectionTop - Lead {
        current := sections[i].id;
      }
      assert sections[..i + 1][..i] == sections[..i];
      i := i + 1;
    }
    assert sections[..i] == sections;
  }

  /** The second loop of the scroll handler: clear every link's colour, then
      highlight the ones pointing at the current section. */
  method HighlightLinks(hrefs: seq<Option<string>>, colors: array<string>, current: string)
    requires colors.Length == |hrefs|
    modifies colors
    ensures forall i :: 0 <= i < colors.Length ==> colors[i] == LinkColor(hrefs[i], current)
  {
    var i := 0;
    while i < colors.Length
      invariant 0 <= i <= colors.Length
      invariant forall j :: 0 <= j < i ==> colors[j] == LinkColor(hrefs[j], current)
    {
      colors[i] := "";
      if hrefs[i] == Some("#" + current) {
        colors[i] := HighlightColor;
      }
      i := i + 1;
    }
  }

  /** The whole scroll handler. */
  method OnScroll(sections: seq<Section>, scroll: int, hrefs: seq<Option<string>>, colors: array<string>)
    returns (current: string)
    requires colors.Length == |hrefs|
    modifies colors
    ensures current == ActiveId(sections, scroll)
    ensures forall i :: 0 <= i < colors.Length ==>
      (colors[i] == HighlightColor <==> hrefs[i] == Some("#" + current))
    ensures forall i :: 0 <= i < colors.Length ==>
      (colors[i] == "" <==> hrefs[i] != Some("#" + current))
  {
    current := ScanSections(sections, scroll);
    HighlightLinks(hrefs, colors, current);
  }
}
