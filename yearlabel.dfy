/** `updateYear` (js/main.js): the year shown in the `#year` label for a
    slider position. The `<h4>` markup around the year is not modelled; the
    label is its year text. */
module YearLabel {
  import opened Props

  /** First year of the data set, shown at slider position 0. */
  const FirstYear: nat := 2013

  /** The lookup table of `updateYear`: positions 0..6 name the years
      2013..2019; any other argument matches no branch. */
  function YearText(index: int): (r: Option<string>)
    ensures r.Some? <==> 0 <= index <= 6
    ensures r.Some? ==> |r.value| == 4 && r.value[..3] == "201"
  {
    if index == 0 then Some("2013")
    else if index == 1 then Some("2014")
    else if index == 2 then Some("2015")
    else if index == 3 then Some("2016")
    else if index == 4 then Some("2017")
    else if index == 5 then Some("2018")
    else if index == 6 then Some("2019")
    else None
  }

  /** `updateYear(index)` applied to the label's current text. `None` is
      the argument-less call `updateYear()` made inside the symbol update
      loop: `undefined` equals no position, so the label stays. */
  function UpdateYear(shown: string, index: Option<int>): (r: string)
    ensures index.None? ==> r == shown
    ensures index.Some? && 0 <= index.value <= 6 ==> Some(r) == YearText(index.value)
    ensures index.Some? && !(0 <= index.value <= 6) ==> r == shown
  {
    match index
    case None => shown
    case Some(i) =>
      match YearText(i)
      case Some(year) => year
      case None => shown
  }

  /** Decimal digits of a natural number, most significant first. */
  function DecimalString(n: nat): (r: string)
    ensures |r| >= 1
    decreases n
  {
    var digit := ['0' + (n % 10) as char];
    if n < 10 then digit else DecimalString(n / 10) + digit
  }

  /** The table names exactly the positions 0..6, and position `i` shows
      the year 2013 + i written in decimal. */
  lemma YearTextIsYear(index: int)
    ensures YearText(index).Some? <==> 0 <= index <= 6
    ensures 0 <= index <= 6 ==> YearText(index) == Some(DecimalString(FirstYear + index))
  {
    if 0 <= index <= 6 {
      var y: nat := FirstYear + index;
      assert DecimalString(2) == "2";
      assert DecimalString(20) == "20";
      assert DecimalString(201) == "201";
      assert y / 10 == 201 && y % 10 == 3 + index;
      assert DecimalString(y) == "201" + ['0' + (3 + index) as char];
      if index == 0 { assert "201" + ['0' + 3 as char] == "2013"; }
      else if index == 1 { assert "201" + ['0' + 4 as char] == "2014"; }
      else if index == 2 { assert "201" + ['0' + 5 as char] == "2015"; }
      else if index == 3 { assert "201" + ['0' + 6 as char] == "2016"; }
      else if index == 4 { assert "201" + ['0' + 7 as char] == "2017"; }
      else if index == 5 { assert "201" + ['0' + 8 as char] == "2018"; }
      else { assert "201" + ['0' + 9 as char] == "2019"; }
    }
  }

  /** Different positions show different years. */
  lemma YearTextInjective(i: int, j: int)
    requires YearText(i).Some? && YearText(i) == YearText(j)
    ensures i == j
  {
  }
}
