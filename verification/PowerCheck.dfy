/** The battery check: a measured voltage becomes a level from 0 to 255 and an LED colour. */
module PowerCheck {
  import opened Arithmetic
  import opened Bytes
  import opened Options

  const UINT32 := 0x1_0000_0000
  const DEFAULT_LOW := 970
  const DEFAULT_HIGH := 1200

  datatype Shown = Shown(level: byte, red: byte, green: byte)

  /** The level of a voltage above the low threshold, in the program's 32-bit arithmetic. */
  function Level(low: nat, high: nat, volt: nat): (level: byte)
    requires low < volt
  {
    if volt > high then 0xff
    else (255 * (volt - low) % UINT32 / (high - low)) % 256
  }

  function Colours(level: byte): Shown {
    if level >= 128 then Shown(level, 2 * (255 - level), 0xff) else Shown(level, 0xff, 2 * level)
  }

  /** For 16-bit thresholds nothing overflows and nothing is divided by zero: the level is the
      exact share of the way from low to high, rounded down. */
  lemma LevelIsExact(low: nat, high: nat, volt: nat)
    requires low < volt <= high < 0x10000
    ensures high - low > 0 && 255 * (volt - low) < UINT32
    ensures Level(low, high, volt) * (high - low) <= 255 * (volt - low) < (Level(low, high, volt) + 1) * (high - low)
  {
    var share, span := 255 * (volt - low), high - low;
    DivAtMost(share, 255, span);
    DivBounds(share, span);
    ExactLevel(low, high, volt);
  }

  lemma ExactLevel(low: nat, high: nat, volt: nat)
    requires low < volt <= high < 0x10000
    ensures Level(low, high, volt) == 255 * (volt - low) / (high - low) <= 255
  {
    var share: nat, span: nat := 255 * (volt - low), high - low;
    DivAtMost(share, 255, span);
    SmallMod(share, UINT32);
    SmallMod(share / span, 256);
  }

  lemma LevelIsMonotone(low: nat, high: nat, v: nat, w: nat)
    requires low < v <= w && high < 0x10000
    ensures Level(low, high, v) <= Level(low, high, w)
  {
    if w <= high {
      ExactLevel(low, high, v);
      ExactLevel(low, high, w);
      DivMono(255 * (v - low), 255 * (w - low), high - low);
    }
  }

  /** The LED goes from red to green: one of the two is always full, and as the voltage rises
      green never falls and red never rises. */
  lemma ColoursFollowVoltage(low: nat, high: nat, v: nat, w: nat)
    requires low < v <= w && high < 0x10000
    ensures var a, b := Colours(Level(low, high, v)), Colours(Level(low, high, w));
            && a.green <= b.green && b.red <= a.red
            && (a.red == 255 || a.green == 255)
  {
    LevelIsMonotone(low, high, v, w);
  }

  /** At the high threshold and above, the level is full. */
  lemma FullFromHigh(low: nat, high: nat, volt: nat)
    requires low < volt && high <= volt && high < 0x10000
    ensures Level(low, high, volt) == 255
  {
    if volt == high {
      LevelIsExact(low, high, volt);
      if Level(low, high, volt) < 255 {
        MulMono(Level(low, high, volt) + 1, 255, high - low);
        assert false;
      }
    }
  }

  /** The colours exactly: one of them is full, red up to level 127 and green from 128 on, and both
      together rise by 2 per level to the middle and fall again; so neither jumps. */
  lemma ColoursAreMixed(level: byte)
    ensures var c := Colours(level);
            && c.level == level && Max(c.red, c.green) == 255 && (c.green < c.red <==> level < 128)
            && c.red + c.green == 255 + 2 * Min(level, 255 - level)
  {
  }

  lemma ColoursDoNotJump(level: byte)
    requires level < 255
    ensures 0 <= Colours(level + 1).green - Colours(level).green <= 2
    ensures 0 <= Colours(level).red - Colours(level + 1).red <= 2
  {
    ColoursAreMixed(level);
    ColoursAreMixed(level + 1);
  }

  function Max(a: int, b: int): int {
    if a < b then b else a
  }

  function Min(a: int, b: int): int {
    if a < b then a else b
  }

  class PowerCheck {
    var lowThresh: nat
    var highThresh: nat
    /** The levels handed to the message pump so far. */
    var posted: seq<byte>

    constructor ()
      ensures lowThresh == DEFAULT_LOW && highThresh == DEFAULT_HIGH && posted == []
    {
      lowThresh, highThresh, posted := DEFAULT_LOW, DEFAULT_HIGH, [];
    }

    predicate Valid()
      reads this
    {
      lowThresh < 0x10000 && highThresh < 0x10000
    }

    /** `None` when the board switches itself off, and then nothing is posted. */
    method OnNewPwrMeasurement(curLevel: nat) returns (r: Option<Shown>)
      requires Valid()
      modifies this`posted
      ensures posted == old(posted) + if lowThresh >= curLevel then [] else [Level(lowThresh, highThresh, curLevel)]
      ensures r == if lowThresh >= curLevel then None
                   else Some(Colours(Level(lowThresh, highThresh, curLevel)))
    {
      if lowThresh >= curLevel {
        return None;
      }
      var level: byte := 0xff;
      if curLevel <= highThresh {
        LevelIsExact(lowThresh, highThresh, curLevel);
        level := (255 * (curLevel - lowThresh) % UINT32 / (highThresh - lowThresh)) % 256;
      }
      var green: byte := level;
      var red: byte := 0xff - level;
      if level >= 128 {
        green := 0xff;
        red := 2 * (255 - level);
      } else {
        red := 0xff;
        green := 2 * level;
      }
      r := Some(Shown(level, red, green));
      posted := posted + [level];
    }

    /** The endpoints that set the thresholds take two bytes, low byte first, and nothing else. */
    method SetLowerVoltage(packet: seq<byte>)
      requires Valid()
      modifies this`lowThresh
      ensures Valid()
      ensures lowThresh == if |packet| == 2 then packet[0] as int + 256 * packet[1] as int else old(lowThresh)
    {
      if |packet| == 2 {
        lowThresh := packet[0] as int + 256 * packet[1] as int;
      }
    }

    method SetUpperVoltage(packet: seq<byte>)
      requires Valid()
      modifies this`highThresh
      ensures Valid()
      ensures highThresh == if |packet| == 2 then packet[0] as int + 256 * packet[1] as int else old(highThresh)
    {
      if |packet| == 2 {
        highThresh := packet[0] as int + 256 * packet[1] as int;
      }
    }
  }
}
