/**
 * The older reader's settings panel: font-size buttons that step through a fixed list
 * of sizes by position, their disabled states, and which controls a PDF gets.
 */
module SettingsPanel {
  import opened Wrappers
  import Seqs

  /** The offered font sizes, in pixels. */
  const FontSizes: seq<real> := [14.0, 16.0, 18.0, 20.0, 22.0, 24.0]

  /** The offered sizes step by 2 px from 14 px. */
  lemma {:induction false} SizesStepByTwo()
    ensures forall k :: 0 <= k < |FontSizes| ==> FontSizes[k] == 14.0 + 2.0 * k as real
  {
    forall k | 0 <= k < |FontSizes| ensures FontSizes[k] == 14.0 + 2.0 * k as real {
      if k == 0 {} else if k == 1 {} else if k == 2 {} else if k == 3 {} else if k == 4 {} else {}
    }
  }

  /** The size the minus button asks for: the previous list entry, nothing at the first entry or off the list. */
  function Decrease(size: real): (r: Option<real>)
    ensures r.Some? <==> size in FontSizes && size != FontSizes[0]
    ensures r.Some? ==>
      r.value in FontSizes && r.value < size && Seqs.IndexOf(FontSizes, r.value) == Seqs.IndexOf(FontSizes, size) - 1
  {
    var i := Seqs.IndexOf(FontSizes, size);
    SizesStepByTwo();
    if i > 0 then
      Seqs.IndexOfDistinct(FontSizes, i - 1);
      assert FontSizes[i] == size && size != FontSizes[0];
      Some(FontSizes[i - 1])
    else
      assert i == 0 ==> size == FontSizes[0];
      None
  }

  /** The size the plus button asks for: the next entry; a size off the list (index -1) jumps to the first. */
  function Increase(size: real): (r: Option<real>)
    ensures r.Some? <==> size != FontSizes[|FontSizes| - 1]
    ensures size !in FontSizes ==> r == Some(FontSizes[0])
    ensures size in FontSizes && r.Some? ==>
      r.value > size && Seqs.IndexOf(FontSizes, r.value) == Seqs.IndexOf(FontSizes, size) + 1
  {
    var i := Seqs.IndexOf(FontSizes, size);
    SizesStepByTwo();
    if i < |FontSizes| - 1 then
      Seqs.IndexOfDistinct(FontSizes, i + 1);
      Some(FontSizes[i + 1])
    else None
  }

  /** The minus button is disabled at or below the smallest size. */
  function DecreaseDisabled(size: real): (b: bool)
    ensures size in FontSizes ==> (b <==> Decrease(size).None?)
    ensures !b ==> size > FontSizes[0]
  {
    size <= FontSizes[0]
  }

  /** The plus button is disabled at or above the largest size. */
  function IncreaseDisabled(size: real): (b: bool)
    ensures size in FontSizes ==> (b <==> Increase(size).None?)
    ensures !b ==> size < FontSizes[|FontSizes| - 1]
  {
    size >= FontSizes[|FontSizes| - 1]
  }

  /** On a listed size the buttons are disabled exactly when pressing them would change nothing. */
  lemma {:induction false} DisabledExactlyWhenNoStep(size: real)
    requires size in FontSizes
    ensures DecreaseDisabled(size) <==> Decrease(size).None?
    ensures IncreaseDisabled(size) <==> Increase(size).None?
  {
    var i := Seqs.IndexOf(FontSizes, size);
    SizesStepByTwo();
    assert size == 14.0 + 2.0 * i as real;
  }

  /** Off the list the two disagree: an enabled minus does nothing, and 30 px has a disabled plus that would jump to 14 px. */
  lemma OffListSizes()
    ensures !DecreaseDisabled(15.0) && Decrease(15.0).None?
    ensures IncreaseDisabled(30.0) && Increase(30.0) == Some(14.0)
  {
    assert 15.0 !in FontSizes;
    assert 30.0 !in FontSizes;
  }

  /** Plus then minus comes back to a listed size below the largest. */
  lemma {:induction false} StepsUndo(k: nat)
    requires k < |FontSizes| - 1
    ensures Increase(FontSizes[k]).Some? && Decrease(Increase(FontSizes[k]).value) == Some(FontSizes[k])
  {
    SizesStepByTwo();
    Seqs.IndexOfDistinct(FontSizes, k);
    Seqs.IndexOfDistinct(FontSizes, k + 1);
  }

  datatype Control = ThemeChoice | FontSizeStepper | FontFamilyChoice

  /** The panel's controls: the theme always; font size and family only for an EPUB. */
  function Controls(isPdf: bool): (cs: set<Control>)
    ensures ThemeChoice in cs
    ensures FontSizeStepper in cs <==> !isPdf
    ensures FontFamilyChoice in cs <==> !isPdf
  {
    if isPdf then {ThemeChoice} else {ThemeChoice, FontSizeStepper, FontFamilyChoice}
  }
}
