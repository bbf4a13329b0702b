/** Severity levels of the logger: the `LogLevel` enumeration nested in `Logger`,
    whose raw values order the levels from most severe (0) to least severe (4),
    and the glyph each level shows in front of its message. */
module LogLevels {

  datatype Option<T> = None | Some(value: T)

  /** Declared in the source's order, so that the constructor order and the raw
      values agree. */
  datatype LogLevel = Critical | Error | Warning | Info | Debug {

    /** The enumeration's raw value (a `UInt`). */
    function RawValue(): nat {
      match this
      case Critical => 0
      case Error => 1
      case Warning => 2
      case Info => 3
      case Debug => 4
    }

    /** The glyph printed before the message: a single code point for every
        level except `Warning`, which is U+26A0 followed by the emoji
        presentation selector U+FE0F. */
    function Icon(): string {
      match this
      case Debug => "\U{1F41E}"
      case Info => "\U{1F4AC}"
      case Warning => "\U{26A0}\U{FE0F}"
      case Error => "\U{1F4DB}"
      case Critical => "\U{1F6A8}"
    }
  }

  /** Every level, in raw-value order. */
  const AllLevels: seq<LogLevel> := [Critical, Error, Warning, Info, Debug]

  /** The failable initialiser `LogLevel(rawValue:)` that Swift synthesises for
      an enumeration with a raw type. */
  function FromRawValue(raw: nat): (r: Option<LogLevel>)
    ensures r.Some? <==> raw <= 4
    ensures r.Some? ==> r.value.RawValue() == raw
  {
    if raw < |AllLevels| then Some(AllLevels[raw]) else None
  }

  /** The gate of `log`: a message of severity `level` is emitted under the
      threshold `topLevel` when its raw value is not above the threshold's. */
  predicate Admits(topLevel: LogLevel, level: LogLevel) {
    level.RawValue() <= topLevel.RawValue()
  }

  /** The raw value identifies the level, and `FromRawValue` undoes it. */
  lemma RawValueRoundTrip(level: LogLevel)
    ensures FromRawValue(level.RawValue()) == Some(level)
    ensures forall other: LogLevel :: other.RawValue() == level.RawValue() ==> other == level
  {
  }

  /** `AllLevels` lists every level once, each at the index of its raw value. */
  lemma AllLevelsIndexedByRawValue()
    ensures |AllLevels| == 5
    ensures forall i :: 0 <= i < |AllLevels| ==> AllLevels[i].RawValue() == i
    ensures forall level: LogLevel :: level in AllLevels
  {
    forall level: LogLevel ensures level in AllLevels {
      assert AllLevels[level.RawValue()] == level;
    }
  }

  /** Under a threshold `topLevel`, exactly the levels up to and including it,
      in raw-value order, are emitted. */
  lemma AdmittedLevelsArePrefix(topLevel: LogLevel, level: LogLevel)
    ensures Admits(topLevel, level) <==> level in AllLevels[..topLevel.RawValue() + 1]
  {
    assert AllLevels[level.RawValue()] == level;
    if level in AllLevels[..topLevel.RawValue() + 1] {
      var i :| 0 <= i < topLevel.RawValue() + 1 && AllLevels[i] == level;
      assert AllLevels[i].RawValue() == i;
    }
  }

  /** Raising the threshold never silences a level that was emitted. */
  lemma AdmitsMonotone(level: LogLevel, lower: LogLevel, higher: LogLevel)
    requires lower.RawValue() <= higher.RawValue()
    requires Admits(lower, level)
    ensures Admits(higher, level)
  {
  }

  /** `critical` passes every threshold, and `debug` passes only the `debug`
      threshold. */
  lemma CriticalAndDebugGates(topLevel: LogLevel)
    ensures Admits(topLevel, Critical)
    ensures Admits(topLevel, Debug) <==> topLevel == Debug
  {
  }

  /** The five icons differ already in their first code point, so an icon is
      never a prefix of another level's icon. */
  lemma IconsDistinct(a: LogLevel, b: LogLevel)
    ensures |a.Icon()| >= 1
    ensures a.Icon()[0] == b.Icon()[0] ==> a == b
    ensures a.Icon() == b.Icon() ==> a == b
  {
  }
}
