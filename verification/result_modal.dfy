/**
 The result overlay: which texts it shows for a win or a loss, and its own
 copy of the time formatter used for "Your Time".
 */
module ResultModal {
  import opened Decimal

  const WinTitle: string := "\U{1F389} Congratulations! \U{1F389}"
  const LoseTitle: string := "\U{1F614} Bad Luck!"
  const WinSubtitle: string := "You Won!"
  const LoseSubtitle: string := "Try Again!"

  /** The heading: the congratulation exactly when `isWin`. */
  function Title(isWin: bool): (r: string)
    ensures r == WinTitle <==> isWin
    ensures r == LoseTitle <==> !isWin
  {
    if isWin then WinTitle else LoseTitle
  }

  /** The line under the heading: "You Won!" exactly when `isWin`. */
  function Subtitle(isWin: bool): (r: string)
    ensures r == WinSubtitle <==> isWin
    ensures r == LoseSubtitle <==> !isWin
  {
    if isWin then WinSubtitle else LoseSubtitle
  }

  /** `seconds.toString().padStart(2, '0')` with `seconds = Math.floor(ms / 1000)`. */
  function SecondsField(ms: nat): (f: string)
    ensures AllDigits(f)
    ensures |f| == if ms / 1000 < 10 then 2 else |ToDecimal(ms / 1000)|
    ensures Parse(f) == ms / 1000
  {
    ParseZeroPadded(ToDecimal(ms / 1000), 2);
    ParseToDecimal(ms / 1000);
    PadStart(ToDecimal(ms / 1000), 2, '0')
  }

  /**
   `milliseconds.toString().padStart(3, '0')` with
   `milliseconds = Math.floor((ms % 1000) / 10)`, a count of hundredths.
   */
  function FractionField(ms: nat): (f: string)
    ensures AllDigits(f)
    ensures |f| == 3 && f[0] == '0'
    ensures Parse(f) == (ms % 1000) / 10 <= 99
  {
    ParseZeroPadded(ToDecimal((ms % 1000) / 10), 3);
    ParseToDecimal((ms % 1000) / 10);
    PadStart(ToDecimal((ms % 1000) / 10), 3, '0')
  }

  /**
   The overlay's formatter. The seconds field is at least two characters and
   is never cut short, the fraction field is exactly three characters starting
   with '0', the one '.' sits between them, and each field reads back as the
   value it encodes.
   */
  function FormatTime(ms: nat): (r: string)
    ensures 6 <= |r|
    ensures r[|r| - 4] == '.'
    ensures forall i :: 0 <= i < |r| && i != |r| - 4 ==> IsDigit(r[i])
    ensures r[..|r| - 4] == SecondsField(ms) && Parse(r[..|r| - 4]) == ms / 1000
    ensures r[|r| - 3..] == FractionField(ms) && Parse(r[|r| - 3..]) == (ms % 1000) / 10
  {
    SecondsField(ms) + "." + FractionField(ms)
  }
}
