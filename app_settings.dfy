/**
 * Reader settings in the newer application: the settings object is derived by
 * folding the settings records, in table order, over the defaults; an update
 * replaces every record of a key with one new string-valued record.
 */
module AppSettings {
  import opened Wrappers
  import Js
  import Seqs
  import opened AppDb

  datatype Settings = Settings(theme: string, fontSize: int, fontFamily: string, lineHeight: real)

  const Defaults: Settings := Settings("sepia", 18, "serif", 1.6)

  /** Keys the `in` test finds on the defaults object: its own four, and those it inherits. */
  predicate InDefaults(key: string) {
    key == "theme" || key == "fontSize" || key == "fontFamily" || key == "lineHeight" || key in Js.ObjectPrototypeKeys
  }

  /** A key the fold's final `else` branch sends to `lineHeight`. */
  predicate IsLineHeightKey(key: string) {
    InDefaults(key) && key != "theme" && key != "fontSize" && key != "fontFamily"
  }

  /** `parseInt(value, 10) || 18`. */
  function FontSizeOf(value: string): (r: int)
    ensures r != 0
    ensures Js.ParseInt(value).Some? && Js.ParseInt(value).value != 0 ==> r == Js.ParseInt(value).value
    ensures Js.ParseInt(value).None? || Js.ParseInt(value) == Some(0) ==> r == 18
  {
    match Js.ParseInt(value)
    case Some(n) => if n != 0 then n else 18
    case None => 18
  }

  /** `parseFloat(value) || 1.6`, where the parse result (absent for NaN) is given. */
  function LineHeightOf(parsed: Option<real>): (r: real)
    ensures r != 0.0
    ensures parsed.Some? && parsed.value != 0.0 ==> r == parsed.value
  {
    match parsed
    case Some(x) => if x != 0.0 then x else 1.6
    case None => 1.6
  }

  /** One pass of the loop body on one record. */
  function Apply(s: Settings, rec: Setting, parseFloat: string -> Option<real>): Settings {
    if !InDefaults(rec.key) then s
    else if rec.key == "theme" then s.(theme := rec.value)
    else if rec.key == "fontFamily" then s.(fontFamily := rec.value)
    else if rec.key == "fontSize" then s.(fontSize := FontSizeOf(rec.value))
    else s.(lineHeight := LineHeightOf(parseFloat(rec.value)))
  }

  /** The records applied in order over the defaults. */
  function Fold(recs: seq<Setting>, parseFloat: string -> Option<real>): Settings
    decreases |recs|
  {
    if recs == [] then Defaults
    else Apply(Fold(recs[..|recs| - 1], parseFloat), recs[|recs| - 1], parseFloat)
  }

  /** The settings the hook yields from the live query's result (absent while loading). */
  method Derive(records: Option<seq<Setting>>, parseFloat: string -> Option<real>) returns (result: Settings)
    ensures records.None? ==> result == Defaults
    ensures records.Some? ==> result == Fold(records.value, parseFloat)
  {
    result := Defaults;
    if records.Some? {
      var recs := records.value;
      for i := 0 to |recs|
        invariant result == Fold(recs[..i], parseFloat)
      {
        assert recs[..i + 1][..i] == recs[..i];
        result := Apply(result, recs[i], parseFloat);
      }
      assert recs[..|recs|] == recs;
    }
  }

  /** The value of the last record whose key satisfies `p`. */
  function LastValue(recs: seq<Setting>, p: string -> bool): (r: Option<string>)
    ensures r.Some? <==> exists i :: 0 <= i < |recs| && p(recs[i].key)
    ensures r.Some? ==> exists i :: 0 <= i < |recs| && p(recs[i].key) && recs[i].value == r.value &&
                          forall j :: i < j < |recs| ==> !p(recs[j].key)
    decreases |recs|
  {
    if recs == [] then None
    else if p(recs[|recs| - 1].key) then Some(recs[|recs| - 1].value)
    else
      var r := LastValue(recs[..|recs| - 1], p);
      assert forall i :: 0 <= i < |recs| - 1 ==> recs[..|recs| - 1][i] == recs[i];
      r
  }

  function ThemeKey(k: string): bool { k == "theme" }
  function FontSizeKey(k: string): bool { k == "fontSize" }
  function FontFamilyKey(k: string): bool { k == "fontFamily" }

  /**
   * Each field is decided by the last record for it, later records overriding
   * earlier ones, and keeps its default when there is none.
   */
  lemma {:induction false} FoldIsLastRecordWins(recs: seq<Setting>, parseFloat: string -> Option<real>)
    ensures Fold(recs, parseFloat).theme == LastValue(recs, ThemeKey).GetOr(Defaults.theme)
    ensures Fold(recs, parseFloat).fontFamily == LastValue(recs, FontFamilyKey).GetOr(Defaults.fontFamily)
    ensures Fold(recs, parseFloat).fontSize ==
              match LastValue(recs, FontSizeKey) case Some(v) => FontSizeOf(v) case None => Defaults.fontSize
    ensures Fold(recs, parseFloat).lineHeight ==
              match LastValue(recs, IsLineHeightKey) case Some(v) => LineHeightOf(parseFloat(v)) case None => Defaults.lineHeight
    decreases |recs|
  {
    if recs != [] {
      FoldIsLastRecordWins(recs[..|recs| - 1], parseFloat);
    }
  }

  /** Records whose key is not a settings key leave the result as it was. */
  lemma {:induction false} ForeignRecordIgnored(recs: seq<Setting>, rec: Setting, parseFloat: string -> Option<real>)
    requires !InDefaults(rec.key)
    ensures Fold(recs + [rec], parseFloat) == Fold(recs, parseFloat)
  {
    assert (recs + [rec])[..|recs|] == recs;
  }

  /** With no records the settings are the defaults. */
  lemma NoRecordsGiveDefaults(parseFloat: string -> Option<real>)
    ensures Fold([], parseFloat) == Settings("sepia", 18, "serif", 1.6)
  {
  }

  /** `updateSetting(key, value)` with the value already turned into its string. */
  method UpdateSetting(db: Database, key: string, value: string)
    requires db.Valid()
    modifies db
    ensures db.Valid()
    ensures db.settings == SettingsWithoutKey(old(db.settings), key) + [Setting(old(db.nextSettingId), key, value)]
    ensures db.books == old(db.books) && db.progress == old(db.progress) && db.bookmarks == old(db.bookmarks)
  {
    db.DeleteSettingsWithKey(key);
    var _ := db.AddSetting(key, value);
  }

  /** After an update exactly one record carries the key, and the other records are kept in order. */
  lemma {:induction false} UpdateLeavesOneRecord(rows: seq<Setting>, key: string, id: nat, value: string)
    ensures var after := SettingsWithoutKey(rows, key) + [Setting(id, key, value)];
            (forall i :: 0 <= i < |after| && after[i].key == key ==> i == |after| - 1 && after[i].value == value) &&
            (forall i :: 0 <= i < |rows| && rows[i].key != key ==> rows[i] in after)
  {
    var kept := SettingsWithoutKey(rows, key);
    var after := kept + [Setting(id, key, value)];
    forall i | 0 <= i < |rows| && rows[i].key != key ensures rows[i] in after {
      assert rows[i] in kept;
    }
  }

  /** After updating a key, the fold reads back the new value for that key; other keys read as before. */
  lemma {:induction false} LastValueAfterUpdate(rows: seq<Setting>, key: string, id: nat, value: string, p: string -> bool)
    ensures var after := SettingsWithoutKey(rows, key) + [Setting(id, key, value)];
            (p(key) ==> LastValue(after, p) == Some(value)) &&
            ((forall k :: p(k) ==> k != key) ==> LastValue(after, p) == LastValue(rows, p))
  {
    var kept := SettingsWithoutKey(rows, key);
    var after := kept + [Setting(id, key, value)];
    assert after[..|after| - 1] == kept;
    if forall k :: p(k) ==> k != key {
      LastValueOfFilter(rows, key, p);
    }
  }

  /** Removing records of a key `p` never selects leaves the last `p`-record unchanged. */
  lemma {:induction false} LastValueOfFilter(rows: seq<Setting>, key: string, p: string -> bool)
    requires forall k :: p(k) ==> k != key
    ensures LastValue(SettingsWithoutKey(rows, key), p) == LastValue(rows, p)
    decreases |rows|
  {
    if rows != [] {
      var init := rows[..|rows| - 1];
      var last := rows[|rows| - 1];
      assert rows == init + [last];
      var kept := SettingsWithoutKey(init, key);
      Seqs.FilterAppend(init, last, (s: Setting) => s.key != key);
      assert SettingsWithoutKey(rows, key) == kept + (if last.key != key then [last] else []);
      LastValueOfFilter(init, key, p);
      assert LastValue(kept, p) == LastValue(init, p);
      LastValueSnoc(init, last, p);
      if last.key != key {
        LastValueSnoc(kept, last, p);
        assert LastValue(kept + [last], p) == LastValue(rows, p);
      } else {
        assert !p(last.key);
        assert kept + [] == kept;
      }
    }
  }

  /** `LastValue` of `s + [x]`: `x` when it qualifies, else the last in `s`. */
  lemma LastValueSnoc(s: seq<Setting>, x: Setting, p: string -> bool)
    ensures LastValue(s + [x], p) == if p(x.key) then Some(x.value) else LastValue(s, p)
  {
    assert (s + [x])[..|s|] == s;
  }

  /** Writing a font size as its decimal string and reading the settings back gives that size (0 reads as 18). */
  lemma {:induction false} FontSizeRoundTrip(rows: seq<Setting>, id: nat, n: int, parseFloat: string -> Option<real>)
    ensures var after := SettingsWithoutKey(rows, "fontSize") + [Setting(id, "fontSize", Js.IntToString(n))];
            Fold(after, parseFloat).fontSize == (if n != 0 then n else 18)
  {
    var after := SettingsWithoutKey(rows, "fontSize") + [Setting(id, "fontSize", Js.IntToString(n))];
    FoldIsLastRecordWins(after, parseFloat);
    LastValueAfterUpdate(rows, "fontSize", id, Js.IntToString(n), FontSizeKey);
    Js.ParseIntOfIntToString(n);
  }

  /** Writing a theme and reading the settings back gives that theme, whatever string it is. */
  lemma {:induction false} ThemeRoundTrip(rows: seq<Setting>, id: nat, theme: string, parseFloat: string -> Option<real>)
    ensures Fold(SettingsWithoutKey(rows, "theme") + [Setting(id, "theme", theme)], parseFloat).theme == theme
  {
    var after := SettingsWithoutKey(rows, "theme") + [Setting(id, "theme", theme)];
    FoldIsLastRecordWins(after, parseFloat);
    LastValueAfterUpdate(rows, "theme", id, theme, ThemeKey);
  }
}
