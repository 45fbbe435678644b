/**
 * The almanac of the day: the saint and the historical fact for a day of
 * the year, looked up in two fixed tables keyed by `"<day>-<month>"`, with a
 * fixed text when the day is not in a table. The date is a parameter
 * (day of month and the zero-based month index `getMonth()` gives) instead of
 * the clock.
 */
module Almanacco {
  import opened Text

  datatype Almanac = Almanac(santo: string, curiosita: string)

  const Santi: map<string, string> := map[
    "1-1" := "Maria SS. Madre di Dio",
    "6-1" := "Epifania del Signore",
    "14-2" := "San Valentino",
    "19-3" := "San Giuseppe",
    "24-6" := "San Giovanni Battista",
    "15-8" := "Assunzione di Maria",
    "1-11" := "Tutti i Santi",
    "8-12" := "Immacolata Concezione",
    "25-12" := "Natale del Signore",
    "26-12" := "Santo Stefano",
    "27-12" := "San Giovanni Evangelista",
    "28-12" := "Santi Innocenti Martiri",
    "31-12" := "San Silvestro"
  ]

  const Fatti: map<string, string> := map[
    "27-12" := "Nel 1947 viene promulgata la Costituzione Italiana.",
    "28-12" := "Nel 1895 nasce ufficialmente il Cinema a Parigi.",
    "1-1" := "Nel 2002 l'Euro diventa la moneta corrente.",
    "6-1" := "Nel 1954 iniziano ufficialmente le trasmissioni TV in Italia."
  ]

  const DefaultSanto := "Santi del Giorno"
  const DefaultCuriosita := "Oggi è una nuova pagina bianca da scrivere con gioia!"

  /** The days (day, 1-based month) that have a saint in the table. */
  const FeastDays: set<(int, int)> := {
    (1, 1), (6, 1), (14, 2), (19, 3), (24, 6), (15, 8), (1, 11),
    (8, 12), (25, 12), (26, 12), (27, 12), (28, 12), (31, 12)
  }

  /** `${giorno}-${mese}`: decimal day, a dash, decimal 1-based month, no zero padding. */
  function Key(day: nat, month: nat): (k: string)
    ensures |k| > |NatToString(day)| + 1 && k[|NatToString(day)|] == '-'
    ensures forall i :: 0 <= i < |NatToString(day)| ==> k[i] != '-'
  {
    NatToString(day) + "-" + NatToString(month)
  }

  /** Before the dash the key reads back as the day, after it as the month. */
  lemma KeyReadsBack(day: nat, month: nat)
    ensures var d := NatToString(day); var k := Key(day, month);
      && k[..|d|] == d && Value(k[..|d|]) == day
      && k[|d|] == '-'
      && k[|d| + 1..] == NatToString(month) && Value(k[|d| + 1..]) == month
  {
    var d, k := NatToString(day), Key(day, month);
    ValueOfNatToString(day);
    ValueOfNatToString(month);
    assert k[..|d|] == d;
    assert k[|d| + 1..] == NatToString(month);
  }

  /** No two (day, month) pairs share a key, so each key names one day of the year. */
  lemma KeyInjective(d1: nat, m1: nat, d2: nat, m2: nat)
    requires Key(d1, m1) == Key(d2, m2)
    ensures d1 == d2 && m1 == m2
  {
    DigitsExclude(NatToString(d1), '-');
    DigitsExclude(NatToString(d2), '-');
    SplitAtSeparator(NatToString(d1), NatToString(m1), NatToString(d2), NatToString(m2), '-');
    NatToStringInjective(d1, d2);
    NatToStringInjective(m1, m2);
  }

  /**
   * `getAlmanacco()` for the day `day` of the month with zero-based index
   * `monthIndex`: each field is the table entry for the key, or the fixed
   * text when the key is absent; both are never empty.
   */
  function GetAlmanacco(day: nat, monthIndex: nat): (r: Almanac)
    ensures var k := Key(day, monthIndex + 1);
      && (k in Santi ==> r.santo == Santi[k])
      && (k !in Santi ==> r.santo == DefaultSanto)
      && (k in Fatti ==> r.curiosita == Fatti[k])
      && (k !in Fatti ==> r.curiosita == DefaultCuriosita)
    ensures r.santo != "" && r.curiosita != ""
  {
    var chiave := Key(day, monthIndex + 1);
    Almanac(
      if chiave in Santi then Santi[chiave] else DefaultSanto,
      if chiave in Fatti then Fatti[chiave] else DefaultCuriosita)
  }

  /** Every day with a historical fact also has a saint. */
  lemma FattiKeysInSanti()
    ensures Fatti.Keys <= Santi.Keys
  {
  }

  /** Keys carry no zero padding, and the table entries resolve as written. */
  lemma KnownEntries()
    ensures Key(6, 1) == "6-1" && Key(25, 12) == "25-12"
    ensures GetAlmanacco(25, 11).santo == "Natale del Signore"
    ensures GetAlmanacco(14, 1).santo == "San Valentino"
    ensures GetAlmanacco(27, 11).curiosita == "Nel 1947 viene promulgata la Costituzione Italiana."
    ensures GetAlmanacco(25, 11).curiosita == DefaultCuriosita
  {
    assert Key(14, 2) == "14-2";
    assert Key(27, 12) == "27-12";
  }

  /**
   * The saint shown differs from the fixed text exactly on the thirteen
   * feast days of the table, whatever the date.
   */
  lemma {:induction false} SantoIsFeastDay(day: nat, monthIndex: nat)
    ensures GetAlmanacco(day, monthIndex).santo != DefaultSanto
        <==> (day, monthIndex + 1) in FeastDays
  {
    var m := monthIndex + 1;
    var k := Key(day, m);
    if k in Santi {
      FeastKeyDecodes(day, m);
    }
    if (day, m) in FeastDays {
      FeastDayHasKey(day, m);
    }
  }

  lemma FeastDayHasKey(day: nat, month: nat)
    requires (day, month) in FeastDays
    ensures Key(day, month) in Santi
  {
    KeysAsWritten1();
    KeysAsWritten2();
    KeysAsWritten3();
  }

  /** The keys of the saints table, one by one. */
  lemma SantiKeys(k: string)
    requires k in Santi
    ensures k == "1-1" ||
      k == "6-1" ||
      k == "14-2" ||
      k == "19-3" ||
      k == "24-6" ||
      k == "15-8" ||
      k == "1-11" ||
      k == "8-12" ||
      k == "25-12" ||
      k == "26-12" ||
      k == "27-12" ||
      k == "28-12" ||
      k == "31-12"
  {
  }

  /** A key found in the saints table decodes to one of the feast days. */
  lemma FeastKeyDecodes(day: nat, month: nat)
    requires Key(day, month) in Santi
    ensures (day, month) in FeastDays
  {
    var k := Key(day, month);
    SantiKeys(k);
    if k == "1-1" || k == "6-1" || k == "14-2" {
      DecodeWinter(day, month);
    } else if k == "19-3" || k == "24-6" || k == "15-8" {
      DecodeSummer(day, month);
    } else if k == "1-11" || k == "8-12" || k == "25-12" {
      DecodeAutumn(day, month);
    } else if k == "26-12" || k == "27-12" {
      DecodeChristmas(day, month);
    } else {
      DecodeYearEnd(day, month);
    }
  }

  lemma {:induction false} DecodeWinter(day: nat, month: nat)
    requires Key(day, month) == "1-1" || Key(day, month) == "6-1" || Key(day, month) == "14-2"
    ensures (day == 1 && month == 1) || (day == 6 && month == 1) || (day == 14 && month == 2)
  {
    var k := Key(day, month);
    if k == "1-1" {
      KeyDecodes(day, month, 1, 1, k);
    } else if k == "6-1" {
      KeyDecodes(day, month, 6, 1, k);
    } else {
      KeyDecodes(day, month, 14, 2, k);
    }
  }

  lemma {:induction false} DecodeSummer(day: nat, month: nat)
    requires Key(day, month) == "19-3" || Key(day, month) == "24-6" || Key(day, month) == "15-8"
    ensures (day == 19 && month == 3) || (day == 24 && month == 6) || (day == 15 && month == 8)
  {
    var k := Key(day, month);
    if k == "19-3" {
      KeyDecodes(day, month, 19, 3, k);
    } else if k == "24-6" {
      KeyDecodes(day, month, 24, 6, k);
    } else {
      KeyDecodes(day, month, 15, 8, k);
    }
  }

  lemma {:induction false} DecodeAutumn(day: nat, month: nat)
    requires Key(day, month) == "1-11" || Key(day, month) == "8-12" || Key(day, month) == "25-12"
    ensures (day == 1 && month == 11) || (day == 8 && month == 12) || (day == 25 && month == 12)
  {
    var k := Key(day, month);
    if k == "1-11" {
      KeyDecodes(day, month, 1, 11, k);
    } else if k == "8-12" {
      KeyDecodes(day, month, 8, 12, k);
    } else {
      KeyDecodes(day, month, 25, 12, k);
    }
  }

  lemma {:induction false} DecodeChristmas(day: nat, month: nat)
    requires Key(day, month) == "26-12" || Key(day, month) == "27-12"
    ensures (day == 26 && month == 12) || (day == 27 && month == 12)
  {
    var k := Key(day, month);
    if k == "26-12" {
      KeyDecodes(day, month, 26, 12, k);
    } else {
      KeyDecodes(day, month, 27, 12, k);
    }
  }

  lemma {:induction false} DecodeYearEnd(day: nat, month: nat)
    requires Key(day, month) == "28-12" || Key(day, month) == "31-12"
    ensures (day == 28 && month == 12) || (day == 31 && month == 12)
  {
    var k := Key(day, month);
    if k == "28-12" {
      KeyDecodes(day, month, 28, 12, k);
    } else {
      KeyDecodes(day, month, 31, 12, k);
    }
  }

  lemma KeysAsWritten1()
    ensures Key(1, 1) == "1-1" &&
      Key(6, 1) == "6-1" &&
      Key(14, 2) == "14-2" &&
      Key(19, 3) == "19-3" &&
      Key(24, 6) == "24-6"
  {
  }

  lemma KeysAsWritten2()
    ensures Key(15, 8) == "15-8" &&
      Key(1, 11) == "1-11" &&
      Key(8, 12) == "8-12" &&
      Key(25, 12) == "25-12"
  {
  }

  lemma KeysAsWritten3()
    ensures Key(26, 12) == "26-12" &&
      Key(27, 12) == "27-12" &&
      Key(28, 12) == "28-12" &&
      Key(31, 12) == "31-12"
  {
  }
  lemma KeyDecodes(day: nat, month: nat, d: nat, m: nat, k: string)
    requires k == Key(day, month) && k == NatToString(d) + "-" + NatToString(m)
    ensures day == d && month == m
  {
    KeyInjective(day, month, d, m);
  }
}
