/** The commands as they are written to a ROC. */
module FlashWire {
  import opened Basics
  import opened FlashTags
  import opened FlashWorld

  /** A 32-bit parameter, the low word first. */
  function Parameter(p: nat): seq<Word> {
    [p % 65536, p / 65536 % 65536]
  }

  /** Only a tagged command has a last word more. */
  function TagWords(no: nat): seq<Word> {
    if no == 0 then [] else [WireTag(no)]
  }

  function CommandWords(c: Cmd): seq<Word> {
    match c
    case Erase(a, n, no) => [3] + Parameter(a) + Parameter(n) + TagWords(no)
    case Write(a, ws, no) => [8] + Parameter(a) + Parameter(|ws|) + ws + TagWords(no)
    case Read(a, n) => [7] + Parameter(a) + Parameter(n)
    case Crc(a, n, no) => [10] + Parameter(a) + Parameter(n) + TagWords(no)
    case Iap(a) => [5] + Parameter(a) + Parameter(0)
  }

  /** What a MiV makes of the words: action, address, second parameter and what follows. */
  datatype Decoded = Decoded(action: nat, addr: nat, second: nat, rest: seq<Word>)

  function Decode(ws: seq<Word>): Decoded
    requires |ws| >= 5
  {
    Decoded(ws[0], (ws[1] as nat) + 65536 * (ws[2] as nat), (ws[3] as nat) + 65536 * (ws[4] as nat), ws[5..])
  }

  predicate Fits32(c: Cmd) {
    c.addr < 0x1_0000_0000
    && match c
       case Erase(_, n, _) => n < 0x1_0000_0000
       case Write(_, ws, _) => |ws| < 0x1_0000_0000
       case Read(_, n) => n < 0x1_0000_0000
       case Crc(_, n, _) => n < 0x1_0000_0000
       case Iap(_) => true
  }

  lemma ParameterDecodes(p: nat)
    requires p < 0x1_0000_0000
    ensures (Parameter(p)[0] as nat) + 65536 * (Parameter(p)[1] as nat) == p
  {
  }

  /** The words decode to the action number, the address, the size or count, the data, and the tag at the end. */
  lemma CommandDecodes(c: Cmd)
    requires Fits32(c)
    ensures |CommandWords(c)| >= 5
    ensures Decode(CommandWords(c)) ==
            match c
            case Erase(a, n, no) => Decoded(3, a, n, if no == 0 then [] else [WireTag(no)])
            case Write(a, ws, no) => Decoded(8, a, |ws|, if no == 0 then ws else ws + [WireTag(no)])
            case Read(a, n) => Decoded(7, a, n, [])
            case Crc(a, n, no) => Decoded(10, a, n, if no == 0 then [] else [WireTag(no)])
            case Iap(a) => Decoded(5, a, 0, [])
  {
    hide Parameter, WireTag;
    ParameterDecodes(c.addr);
    var second := match c
                  case Erase(_, n, _) => n
                  case Write(_, ws, _) => |ws|
                  case Read(_, n) => n
                  case Crc(_, n, _) => n
                  case Iap(_) => 0;
    ParameterDecodes(second);
    ParameterSize(c.addr);
    ParameterSize(second);
  }

  lemma ParameterSize(p: nat)
    ensures |Parameter(p)| == 2
  {
  }
}
