/**
 * The theme button of both library headers: it cycles light, sepia, dark by position
 * in a fixed list (`indexOf` + 1, modulo 3), and shows an icon for the current theme.
 */
module Themes {
  import Seqs

  /** The cycle order. */
  const Cycle: seq<string> := ["light", "sepia", "dark"]

  /** `cycleTheme`'s new theme: the next in the list, wrapping; a name not in the list (index -1) gives light. */
  function NextTheme(theme: string): (t: string)
    ensures t in Cycle
    ensures theme == "light" ==> t == "sepia"
    ensures theme == "sepia" ==> t == "dark"
    ensures theme == "dark" ==> t == "light"
    ensures theme !in Cycle ==> t == "light"
    ensures t != theme
  {
    Cycle[(Seqs.IndexOf(Cycle, theme) + 1) % |Cycle|]
  }

  /** Three presses bring a listed theme back; from any other name they end at dark. */
  lemma {:induction false} ThreePressesReturn(theme: string)
    ensures theme in Cycle ==> NextTheme(NextTheme(NextTheme(theme))) == theme
    ensures theme !in Cycle ==> NextTheme(NextTheme(NextTheme(theme))) == "dark"
  {
    var a := NextTheme(theme);
    var b := NextTheme(a);
    assert a in Cycle && b in Cycle;
    if theme !in Cycle {
      assert a == "light" && b == "sepia";
    }
  }

  datatype Icon = Moon | Coffee | Sun

  /** The header icon: Moon for dark, Coffee for sepia, Sun for any other name. */
  function IconOf(theme: string): (i: Icon)
    ensures i == Moon <==> theme == "dark"
    ensures i == Coffee <==> theme == "sepia"
    ensures i == Sun <==> theme != "dark" && theme != "sepia"
  {
    if theme == "dark" then Moon else if theme == "sepia" then Coffee else Sun
  }

  /** The icon already announces the theme a press leaves: Sun goes to Coffee, Coffee to Moon, Moon to Sun. */
  lemma {:induction false} IconFollowsCycle(theme: string)
    ensures IconOf(theme) == Sun && theme == "light" ==> IconOf(NextTheme(theme)) == Coffee
    ensures IconOf(theme) == Coffee ==> IconOf(NextTheme(theme)) == Moon
    ensures IconOf(theme) == Moon ==> IconOf(NextTheme(theme)) == Sun
  {
  }
}
