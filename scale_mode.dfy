/**
 * The settings picker's video scaling mode: the stored integer and the picker's
 * string tag, converted by the binding's getter and setter.
 */
module ScaleMode {
  /** The picker's tags; a tag's position is the integer stored for it. */
  const Modes: seq<string> := ["fill", "fit", "stretch", "center", "height-fill"]

  /** The getter: the stored integer read as a tag; anything outside 0..4 reads as "fill". */
  function ModeName(mode: int): (name: string)
    ensures 0 <= mode < |Modes| ==> name == Modes[mode]
    ensures !(0 <= mode < |Modes|) ==> name == Modes[0]
  {
    match mode
    case 0 => "fill"
    case 1 => "fit"
    case 2 => "stretch"
    case 3 => "center"
    case 4 => "height-fill"
    case _ => "fill"
  }

  /** The setter: the integer stored for a tag; an unknown tag stores 0. */
  function ModeValue(name: string): (mode: int)
    ensures 0 <= mode < |Modes|
    ensures name in Modes ==> Modes[mode] == name
    ensures name !in Modes ==> mode == 0
  {
    match name
    case "fill" => 0
    case "fit" => 1
    case "stretch" => 2
    case "center" => 3
    case "height-fill" => 4
    case _ => 0
  }

  /** Setting the tag read for a valid integer stores that integer again. */
  lemma ValueOfName(mode: int)
    requires 0 <= mode < |Modes|
    ensures ModeValue(ModeName(mode)) == mode
  {
  }

  /** Reading back the integer stored for a valid tag gives that tag again. */
  lemma NameOfValue(name: string)
    requires name in Modes
    ensures ModeName(ModeValue(name)) == name
  {
  }
}
