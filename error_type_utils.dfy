/**
 * Error-type helpers: normalisation of mis-encoded or inconsistently written
 * messages, classification by severity, the colour table and the extraction
 * of the type from a record of either log.
 */
module ErrorTypeUtils {
  import opened Wrappers
  import opened Text
  import opened Records

  /** 'Zeitüberschreitung' as it reads after a UTF-8 text was decoded as Latin-1. */
  const Mojibake: string := "Zeit\U{00C3}\U{00BC}berschreitung"
  const Timeout: string := "Zeit\U{00FC}berschreitung"
  const LowerPeer: string := "Verbindung von peer"
  const UpperPeer: string := "Verbindung von Peer"
  const Unknown: string := "Unbekannt"

  /** `!x` for a value that is a string or `undefined`. */
  predicate Falsy(x: Option<string>) {
    x.None? || x.value == ""
  }

  /** The two global replacements, in order. */
  function Repair(t: string): string {
    ReplaceAll(ReplaceAll(t, Mojibake, Timeout), LowerPeer, UpperPeer)
  }

  /** `normalizeErrorType(type)` */
  function Normalize(x: Option<string>): (s: string)
    ensures s != ""
  {
    if Falsy(x) then Unknown
    else
      ReplaceAllNonEmpty(x.value, Mojibake, Timeout);
      ReplaceAllNonEmpty(ReplaceAll(x.value, Mojibake, Timeout), LowerPeer, UpperPeer);
      var t := Repair(x.value);
      if t == "" then Unknown else t
  }

  /** After the repair neither the mis-encoded word nor the lower-case 'peer' phrase is left. */
  lemma RepairRemoves(t: string)
    ensures Free(Repair(t), Mojibake) && Free(Repair(t), LowerPeer)
  {
    var t1 := ReplaceAll(t, Mojibake, Timeout);
    assert Mojibake[4] != Timeout[4];
    ReplaceAllRemoves(t, Mojibake, Timeout, 4);
    assert LowerPeer[15] != UpperPeer[15];
    ReplaceAllRemoves(t1, LowerPeer, UpperPeer, 15);
    assert Mojibake[0] !in UpperPeer && UpperPeer[0] !in Mojibake;
    ReplaceAllKeepsFree(t1, LowerPeer, UpperPeer, Mojibake);
  }

  /** Text with neither pattern in it is left as it is. */
  lemma NormalizeKeepsPlainText(t: string)
    requires t != "" && Free(t, Mojibake) && Free(t, LowerPeer)
    ensures Normalize(Some(t)) == t
  {
    ReplaceAllFree(t, Mojibake, Timeout);
    ReplaceAllFree(t, LowerPeer, UpperPeer);
  }

  /** Normalising twice is normalising once. */
  lemma NormalizeIdempotent(x: Option<string>)
    ensures Normalize(Some(Normalize(x))) == Normalize(x)
  {
    if Falsy(x) {
      assert forall i :: !OccursAt(Unknown, Mojibake, i);
      assert forall i :: !OccursAt(Unknown, LowerPeer, i);
      NormalizeKeepsPlainText(Unknown);
    } else {
      RepairRemoves(x.value);
      NormalizeKeepsPlainText(Normalize(x));
    }
  }

  /** The mis-encoded word is repaired to its proper spelling. */
  lemma NormalizeRepairsMojibake()
    ensures Normalize(Some(Mojibake)) == Timeout
  {
    assert Mojibake[..|Mojibake|] == Mojibake;
    assert Mojibake[|Mojibake|..] == "";
    assert ReplaceAll(Mojibake, Mojibake, Timeout) == Timeout;
    assert forall i :: !OccursAt(Timeout, LowerPeer, i);
    ReplaceAllFree(Timeout, LowerPeer, UpperPeer);
  }

  // ---------------------------------------------------------------------------
  // severity

  datatype Category = Critical | Warning | Info

  predicate CriticalText(t: string) {
    Includes(t, "deadlock") || Includes(t, "Timeout") || Includes(t, Timeout) || Includes(t, "lock conflict")
  }

  predicate WarningText(t: string) {
    Includes(t, "multiple") || Includes(t, "Verbindung")
  }

  /**
   * `categorizeErrorType(errorType)`: the critical words take precedence over
   * the warning words; anything else is informational.
   */
  function Categorize(t: string): (c: Category)
    ensures c == Critical <==> CriticalText(t)
    ensures c == Warning <==> !CriticalText(t) && WarningText(t)
    ensures c == Info <==> !CriticalText(t) && !WarningText(t)
  {
    if CriticalText(t) then Critical
    else if WarningText(t) then Warning
    else Info
  }

  /** Matching is case-sensitive: 'TIMEOUT' is informational, 'Timeout' critical. */
  lemma CategorizeIsCaseSensitive()
    ensures Categorize("TIMEOUT") == Info
    ensures Categorize("Timeout") == Critical
  {
    assert StartsWith("Timeout", "Timeout");
    CapitalsAreInfo("TIMEOUT");
  }

  /** A text written in capitals matches none of the words, so it is informational. */
  lemma CapitalsAreInfo(t: string)
    requires forall k :: 0 <= k < |t| ==> 'A' <= t[k] <= 'Z'
    ensures Categorize(t) == Info
  {
    CapitalsMissLowerCase(t, "deadlock");
    CapitalsMissLowerCase(t, "Timeout");
    CapitalsMissLowerCase(t, Timeout);
    CapitalsMissLowerCase(t, "lock conflict");
    CapitalsMissLowerCase(t, "multiple");
    CapitalsMissLowerCase(t, "Verbindung");
  }

  /** A text in capitals contains no word whose second letter is lower-case. */
  lemma CapitalsMissLowerCase(t: string, p: string)
    requires forall k :: 0 <= k < |t| ==> 'A' <= t[k] <= 'Z'
    requires |p| >= 2 && 'a' <= p[1] <= 'z'
    ensures !Includes(t, p)
  {
    IncludesIffOccurs(t, p);
    forall i ensures !OccursAt(t, p, i) {
      if 0 <= i && i + |p| <= |t| {
        assert t[i..i + |p|][1] == t[i + 1];
      }
    }
  }

  /** A message with the mis-encoded timeout word is critical once normalised. */
  lemma MojibakeIsCriticalAfterNormalize()
    ensures Categorize(Normalize(Some(Mojibake))) == Critical
  {
    NormalizeRepairsMojibake();
    assert Timeout[..|Timeout|] == Timeout;
  }

  // ---------------------------------------------------------------------------
  // colours

  datatype ColorSet = ColorSet(hex: string, bg: string, text: string, light: string, dark: string)

  const DefaultColors := ColorSet("#3B82F6", "bg-blue-500", "text-blue-700", "bg-blue-100", "dark:bg-blue-900/30")

  /** Every format of the set has a colour. */
  predicate Filled(c: ColorSet) {
    c.hex != "" && c.bg != "" && c.text != "" && c.light != "" && c.dark != ""
  }

  /** The colour table, keyed by error type; `None` for a type it does not list. */
  function ColorTable(t: string): (r: Option<ColorSet>)
    ensures r.Some? ==> Filled(r.value)
  {
    if t == Timeout then Some(ColorSet("#FF6B81", "bg-red-500", "text-red-700", "bg-red-100", "dark:bg-red-900/30"))
    else if t == "Timeout" then Some(ColorSet("#36A2EB", "bg-blue-500", "text-blue-700", "bg-blue-100", "dark:bg-blue-900/30"))
    else if t == "deadlock" then Some(ColorSet("#FF9F40", "bg-orange-500", "text-orange-700", "bg-orange-100", "dark:bg-orange-900/30"))
    else if t == "lock conflict" then Some(ColorSet("#9966FF", "bg-purple-500", "text-purple-700", "bg-purple-100", "dark:bg-purple-900/30"))
    else if t == UpperPeer then Some(ColorSet("#FF6384", "bg-pink-500", "text-pink-700", "bg-pink-100", "dark:bg-pink-900/30"))
    else if t == "multiple Rows" then Some(ColorSet("#FFCD56", "bg-amber-500", "text-amber-700", "bg-amber-100", "dark:bg-amber-900/30"))
    else if t == "nicht definiert" then Some(ColorSet("#4BC0C0", "bg-teal-500", "text-teal-700", "bg-teal-100", "dark:bg-teal-900/30"))
    else if t == "Fehlerhafte Antwort" then Some(ColorSet("#EC4899", "bg-pink-500", "text-pink-700", "bg-pink-100", "dark:bg-pink-900/30"))
    else if t == "Verbindungsfehler" then Some(ColorSet("#F43F5E", "bg-rose-500", "text-rose-700", "bg-rose-100", "dark:bg-rose-900/30"))
    else if t == Unknown then Some(ColorSet("#6B7280", "bg-gray-500", "text-gray-700", "bg-gray-100", "dark:bg-gray-900/30"))
    else if t == "Andere" then Some(ColorSet("#9CA3AF", "bg-gray-400", "text-gray-600", "bg-gray-50", "dark:bg-gray-800/30"))
    else if t == "default" then Some(DefaultColors)
    else None
  }

  /** `colorSet[format]`, or `None` for a format the set does not have. */
  function ColorField(c: ColorSet, format: string): Option<string> {
    if format == "hex" then Some(c.hex)
    else if format == "bg" then Some(c.bg)
    else if format == "text" then Some(c.text)
    else if format == "light" then Some(c.light)
    else if format == "dark" then Some(c.dark)
    else None
  }

  /** `getErrorTypeColor(errorType, format)` */
  function GetErrorTypeColor(t: string, format: string): (s: string)
    ensures s != ""
  {
    var c := ColorTable(t).GetOr(DefaultColors);
    assert Filled(c);
    match ColorField(c, format)
    case Some(v) => if v != "" then v else c.hex
    case None => c.hex
  }

  /**
   * A type missing from the table gets the 'default' colours, and a format
   * other than the five known ones gets the hex code.
   */
  lemma ColorFallbacks(t: string, format: string)
    ensures ColorTable(t).None? ==> GetErrorTypeColor(t, format) == GetErrorTypeColor("default", format)
    ensures ColorField(DefaultColors, format).None? ==>
      GetErrorTypeColor(t, format) == GetErrorTypeColor(t, "hex")
  {
  }

  /** Every listed type reads its own entry in every known format. */
  lemma ColorTableEntry(t: string, format: string)
    requires ColorTable(t).Some? && ColorField(DefaultColors, format).Some?
    ensures GetErrorTypeColor(t, format) == ColorField(ColorTable(t).value, format).value
  {
    assert Filled(ColorTable(t).value);
  }

  // ---------------------------------------------------------------------------
  // extraction

  /** `extractErrorType(error, source)`; `None` is a null record. */
  function ExtractErrorType(error: Option<Record>, source: string): (s: string)
    ensures s != ""
  {
    match error
    case None => Unknown
    case Some(r) =>
      var raw :=
        if source == "error_log" then Lookup(r, "Fehlermeldung")
        else if source == "pattern_matches" then Lookup(r, "Muster")
        else if !Falsy(Lookup(r, "Fehlermeldung")) then Lookup(r, "Fehlermeldung")
        else Lookup(r, "Muster");
      Normalize(raw)
  }

  /**
   * The error log is read from `Fehlermeldung`, the pattern log from `Muster`,
   * and any other source from `Fehlermeldung` falling back to `Muster`; the
   * result is always normalised, so extracting is idempotent under `Normalize`.
   */
  lemma ExtractErrorTypeSources(r: Record, source: string)
    ensures source == "error_log" ==> ExtractErrorType(Some(r), source) == Normalize(Lookup(r, "Fehlermeldung"))
    ensures source == "pattern_matches" ==> ExtractErrorType(Some(r), source) == Normalize(Lookup(r, "Muster"))
    ensures source != "error_log" && source != "pattern_matches" && Falsy(Lookup(r, "Fehlermeldung")) ==>
      ExtractErrorType(Some(r), source) == Normalize(Lookup(r, "Muster"))
    ensures source != "error_log" && source != "pattern_matches" && !Falsy(Lookup(r, "Fehlermeldung")) ==>
      ExtractErrorType(Some(r), source) == Normalize(Lookup(r, "Fehlermeldung"))
    ensures Normalize(Some(ExtractErrorType(Some(r), source))) == ExtractErrorType(Some(r), source)
  {
    var raw :=
      if source == "error_log" then Lookup(r, "Fehlermeldung")
      else if source == "pattern_matches" then Lookup(r, "Muster")
      else if !Falsy(Lookup(r, "Fehlermeldung")) then Lookup(r, "Fehlermeldung")
      else Lookup(r, "Muster");
    NormalizeIdempotent(raw);
  }
}
