/** `build_placeholder_map`: the values of the twelve placeholders of a letter. */
module Placeholders {
  import opened Wrappers
  import opened Values
  import opened Dicts
  import opened Percent
  import opened Substitution

  /** The metrics read from JSON or Excel. */
  type Payload = map<string, Value>

  /** `payload.get(key, "")`. */
  function PayloadGet(payload: Payload, key: string): Value
  {
    if key in payload then payload[key] else Str("")
  }

  /** The payload fields copied into the letter as they are. */
  const CopiedKeys: seq<string> :=
    ["comment", "fixed_target", "fixed_actual", "ftth_actual", "eon_tv_actual", "mobile_upgrades", "pending_mobile"]

  /** The placeholders of a letter, in the order they are substituted. */
  const PlaceholderKeys: seq<string> :=
    ["store_code", "store_name", "month_name", "year"] + CopiedKeys + ["voice_vs_target_pct"]

  /** The dict literal of eleven items. The month name and the year are those
      of the day the letter is generated, passed in. */
  function LiteralItems(code: string, name: string, payload: Payload, month: string, year: int): Mapping
  {
    [
      ("store_code", Str(code)),
      ("store_name", Str(name)),
      ("month_name", Str(month)),
      ("year", Int(year)),
      ("comment", PayloadGet(payload, "comment")),
      ("fixed_target", PayloadGet(payload, "fixed_target")),
      ("fixed_actual", PayloadGet(payload, "fixed_actual")),
      ("ftth_actual", PayloadGet(payload, "ftth_actual")),
      ("eon_tv_actual", PayloadGet(payload, "eon_tv_actual")),
      ("mobile_upgrades", PayloadGet(payload, "mobile_upgrades")),
      ("pending_mobile", PayloadGet(payload, "pending_mobile"))
    ]
  }

  /** The literal, then the percent-derived key added after it. */
  function BuildPlaceholderMap(code: string, name: string, payload: Payload, month: string, year: int): (r: Mapping)
    ensures Keys(r) == PlaceholderKeys
    ensures |r| == 12 && DistinctKeys(r)
    ensures Lookup(r, "store_code") == Some(Str(code))
    ensures Lookup(r, "store_name") == Some(Str(name))
    ensures Lookup(r, "month_name") == Some(Str(month))
    ensures Lookup(r, "year") == Some(Int(year))
    ensures forall i :: 0 <= i < |CopiedKeys| ==> Lookup(r, CopiedKeys[i]) == Some(PayloadGet(payload, CopiedKeys[i]))
    ensures Lookup(r, "voice_vs_target_pct") == Some(Str(FormatPercent(PayloadGet(payload, "voice_vs_target"))))
    ensures forall k :: k !in PlaceholderKeys ==> Lookup(r, k) == None
  {
    var voice := Str(FormatPercent(PayloadGet(payload, "voice_vs_target")));
    var literal := LiteralItems(code, name, payload, month, year);
    PlaceholderMapShape(code, name, payload, month, year, voice);
    PlaceholderMapFixed(code, name, payload, month, year, voice);
    PlaceholderMapCopied(code, name, payload, month, year, voice);
    Put(literal, "voice_vs_target_pct", voice)
  }

  lemma PlaceholderMapShape(code: string, name: string, payload: Payload, month: string, year: int, voice: Value)
    ensures var r := Put(LiteralItems(code, name, payload, month, year), "voice_vs_target_pct", voice);
      && r == LiteralItems(code, name, payload, month, year) + [("voice_vs_target_pct", voice)]
      && Keys(r) == PlaceholderKeys && DistinctKeys(r)
  {
    var literal := LiteralItems(code, name, payload, month, year);
    LiteralKeys(code, name, payload, month, year);
    PlaceholderKeysDistinct();
    assert "voice_vs_target_pct" == PlaceholderKeys[11];
    assert "voice_vs_target_pct" !in Keys(literal);
    PutNew(literal, "voice_vs_target_pct", voice);
    var r := literal + [("voice_vs_target_pct", voice)];
    assert forall i :: 0 <= i < 11 ==> r[i] == literal[i];
    PlaceholderKeysDistinct();
    KeysInOrder(r, PlaceholderKeys);
  }

  /** The literal carries the first eleven placeholder names in order. */
  lemma LiteralKeys(code: string, name: string, payload: Payload, month: string, year: int)
    ensures |LiteralItems(code, name, payload, month, year)| == 11
    ensures forall i :: 0 <= i < 11 ==> LiteralItems(code, name, payload, month, year)[i].0 == PlaceholderKeys[i]
  {
  }

  lemma PlaceholderMapFixed(code: string, name: string, payload: Payload, month: string, year: int, voice: Value)
    ensures var r := Put(LiteralItems(code, name, payload, month, year), "voice_vs_target_pct", voice);
      && Lookup(r, "store_code") == Some(Str(code))
      && Lookup(r, "store_name") == Some(Str(name))
      && Lookup(r, "month_name") == Some(Str(month))
      && Lookup(r, "year") == Some(Int(year))
      && Lookup(r, "voice_vs_target_pct") == Some(voice)
  {
    PlaceholderMapShape(code, name, payload, month, year, voice);
    var r := Put(LiteralItems(code, name, payload, month, year), "voice_vs_target_pct", voice);
    assert r[0] == ("store_code", Str(code)) && r[1] == ("store_name", Str(name));
    assert r[2] == ("month_name", Str(month)) && r[3] == ("year", Int(year));
    assert r[11] == ("voice_vs_target_pct", voice);
    LookupAt(r, 0);
    LookupAt(r, 1);
    LookupAt(r, 2);
    LookupAt(r, 3);
    LookupAt(r, 11);
  }

  lemma PlaceholderMapCopied(code: string, name: string, payload: Payload, month: string, year: int, voice: Value)
    ensures var r := Put(LiteralItems(code, name, payload, month, year), "voice_vs_target_pct", voice);
      forall i :: 0 <= i < |CopiedKeys| ==> Lookup(r, CopiedKeys[i]) == Some(PayloadGet(payload, CopiedKeys[i]))
  {
    PlaceholderMapShape(code, name, payload, month, year, voice);
    var literal := LiteralItems(code, name, payload, month, year);
    var r := literal + [("voice_vs_target_pct", voice)];
    LiteralCopies(code, name, payload, month, year);
    assert forall k :: 4 <= k < 11 ==> r[k] == literal[k];
    LookupAll(r);
  }

  /** Items four to ten of the literal copy the payload fields. */
  lemma LiteralCopies(code: string, name: string, payload: Payload, month: string, year: int)
    ensures forall i :: 0 <= i < |CopiedKeys| ==>
      LiteralItems(code, name, payload, month, year)[i + 4] == (CopiedKeys[i], PayloadGet(payload, CopiedKeys[i]))
  {
  }

  lemma PlaceholderKeysDistinct()
    ensures forall i, j :: 0 <= i < j < |PlaceholderKeys| ==> PlaceholderKeys[i] != PlaceholderKeys[j]
  {
  }

  /** Every placeholder name is bracket-free, so its token cannot overlap
      another's. */
  lemma PlaceholderKeysAreNames()
    ensures forall i :: 0 <= i < |PlaceholderKeys| ==> IsName(PlaceholderKeys[i])
  {
    CopiedKeysAreNames();
    assert IsName("store_code") && IsName("store_name") && IsName("month_name") && IsName("year");
    assert IsName("voice_vs_target_pct");
    forall i | 0 <= i < |PlaceholderKeys| ensures IsName(PlaceholderKeys[i]) {
      if 4 <= i < 11 {
        assert PlaceholderKeys[i] == CopiedKeys[i - 4];
      }
    }
  }

  lemma CopiedKeysAreNames()
    ensures forall i :: 0 <= i < |CopiedKeys| ==> IsName(CopiedKeys[i])
  {
    assert IsName("comment") && IsName("fixed_target") && IsName("fixed_actual") && IsName("ftth_actual");
    assert IsName("eon_tv_actual") && IsName("mobile_upgrades") && IsName("pending_mobile");
  }

  /** With no `voice_vs_target` in the payload the percent placeholder is empty. */
  lemma PercentPlaceholderWhenAbsent(code: string, name: string, payload: Payload, month: string, year: int)
    requires "voice_vs_target" !in payload
    ensures Lookup(BuildPlaceholderMap(code, name, payload, month, year), "voice_vs_target_pct") == Some(Str(""))
  {
    FormatPercentKeepsNonNumericText("");
  }

  /** A `[[token]]` of a template that names no placeholder stays in the text. */
  lemma UnknownTokenStays(a: string, j: string, b: string, code: string, name: string,
                          payload: Payload, month: string, year: int)
    requires IsName(j) && j !in PlaceholderKeys
    ensures var m := BuildPlaceholderMap(code, name, payload, month, year);
      ReplaceEach(a + Token(j) + b, m) == ReplaceEach(a, m) + Token(j) + ReplaceEach(b, m)
  {
    UnknownTokenStaysIn(a, j, b, BuildPlaceholderMap(code, name, payload, month, year));
  }

  lemma UnknownTokenStaysIn(a: string, j: string, b: string, m: Mapping)
    requires IsName(j) && j !in PlaceholderKeys && Keys(m) == PlaceholderKeys
    ensures ReplaceEach(a + Token(j) + b, m) == ReplaceEach(a, m) + Token(j) + ReplaceEach(b, m)
  {
    PlaceholderKeysAreNames();
    assert forall i :: 0 <= i < |m| ==> m[i].0 == PlaceholderKeys[i];
    ReplaceEachKeepsUnknownToken(a, j, b, m);
  }
}
