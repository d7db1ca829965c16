/**
  The two fixed lookup tables of the ship-name directive language: a value
  character resolved as a colour (ProcessColor) and a value character resolved
  as a flag or sail texture file (ProcessFlagTexture).
 */
module Tables {

  /** The colours the colour table hands out, by name rather than by RGB value. */
  datatype Color = Black | Blue | Cyan | Gray | Green | Magenta | Red | White | Yellow | Orange

  /** ProcessColor's two results: whether the key is known, and the colour written to `out color`. */
  datatype ColorLookup = ColorLookup(found: bool, color: Color)

  /** The value characters the colour table knows. */
  const ColorKeys: string := "blcagmrwyo"

  /** The character that selects colour `c`. */
  function ColorKey(c: Color): (k: char)
    ensures k in ColorKeys
  {
    match c
    case Black => 'b'
    case Blue => 'l'
    case Cyan => 'c'
    case Gray => 'a'
    case Green => 'g'
    case Magenta => 'm'
    case Red => 'r'
    case White => 'w'
    case Yellow => 'y'
    case Orange => 'o'
  }

  /**
    Resolves a colour value character. A known key yields its colour and
    `found`; any other key yields white and not `found`.
   */
  function ProcessColor(val: char): (r: ColorLookup)
    ensures r.found <==> val in ColorKeys
    ensures r.found ==> ColorKey(r.color) == val
    ensures !r.found ==> r.color == White
  {
    match val
    case 'b' => ColorLookup(true, Black)
    case 'l' => ColorLookup(true, Blue)
    case 'c' => ColorLookup(true, Cyan)
    case 'a' => ColorLookup(true, Gray)
    case 'g' => ColorLookup(true, Green)
    case 'm' => ColorLookup(true, Magenta)
    case 'r' => ColorLookup(true, Red)
    case 'w' => ColorLookup(true, White)
    case 'y' => ColorLookup(true, Yellow)
    case 'o' => ColorLookup(true, Orange)
    case _ => ColorLookup(false, White)
  }

  /** Every colour can be written, and its key resolves back to it. */
  lemma ColorKeyRoundTrip(c: Color)
    ensures ProcessColor(ColorKey(c)) == ColorLookup(true, c)
  {
  }

  /** The flag pictures shipped with the mod. */
  datatype Flag = Frog | PirateFrog | Ussr | GreatTortuga | UnityOfComrades

  /** The value characters the texture table knows. */
  const FlagKeys: string := "fpsgu"

  /** The folder, under the mod's asset directory, that holds the flag pictures. */
  const FlagsFolder: string := "flags"

  /** The character that selects flag `f`. */
  function FlagKey(f: Flag): (k: char)
    ensures k in FlagKeys
  {
    match f
    case Frog => 'f'
    case PirateFrog => 'p'
    case Ussr => 's'
    case GreatTortuga => 'g'
    case UnityOfComrades => 'u'
  }

  /** The picture's base file name. */
  function FlagName(f: Flag): string
  {
    match f
    case Frog => "Frog"
    case PirateFrog => "PirateFrog"
    case Ussr => "Ussr"
    case GreatTortuga => "GreatTortuga"
    case UnityOfComrades => "UnityOfComrades"
  }

  /** The file, relative to the mod's asset directory, that holds flag `f`. */
  function FlagFile(f: Flag): (file: string)
    ensures |file| > |FlagsFolder| + 1 + 4
    ensures file[..|FlagsFolder| + 1] == FlagsFolder + "\\"
    ensures file[|file| - 4..] == ".png"
  {
    FlagsFolder + "\\" + FlagName(f) + ".png"
  }

  /** Different flags live in different files. */
  lemma FlagFileInjective(f: Flag, g: Flag)
    requires FlagFile(f) == FlagFile(g)
    ensures f == g
  {
    var prefix := FlagsFolder + "\\";
    assert FlagFile(f) == prefix + FlagName(f) + ".png";
    assert FlagName(f)[..] == FlagFile(f)[|prefix|..|FlagFile(f)| - 4];
    assert FlagName(g)[..] == FlagFile(g)[|prefix|..|FlagFile(g)| - 4];
  }

  /** A texture as the host sees it: a picture decoded from a file, or the engine's white texture. */
  datatype Texture = Image(file: string) | WhiteTexture

  /**
    Loading a texture file: the picture when the file is present among the
    mod's assets, the white texture when it is not.
   */
  function LoadTexture(file: string, assets: set<string>): (t: Texture)
    ensures t.Image? <==> file in assets
    ensures t.Image? ==> t.file == file
  {
    if file in assets then Image(file) else WhiteTexture
  }

  /** ProcessFlagTexture's two results: whether the key is known, and the texture written to `out texture`. */
  datatype TextureLookup = TextureLookup(found: bool, texture: Texture)

  /**
    Resolves a texture value character. A known key loads its flag file and
    reports `found` whether or not the file is present; any other key yields
    the white texture and not `found`.
   */
  function ProcessFlagTexture(val: char, assets: set<string>): (r: TextureLookup)
    ensures r.found <==> val in FlagKeys
    ensures r.found ==> exists f :: FlagKey(f) == val && r.texture == LoadTexture(FlagFile(f), assets)
    ensures !r.found ==> r.texture == WhiteTexture
  {
    match val
    case 'f' => TextureLookup(true, LoadTexture(FlagFile(Frog), assets))
    case 'p' => TextureLookup(true, LoadTexture(FlagFile(PirateFrog), assets))
    case 's' => TextureLookup(true, LoadTexture(FlagFile(Ussr), assets))
    case 'g' => TextureLookup(true, LoadTexture(FlagFile(GreatTortuga), assets))
    case 'u' => TextureLookup(true, LoadTexture(FlagFile(UnityOfComrades), assets))
    case _ => TextureLookup(false, WhiteTexture)
  }

  /** Every flag can be written, and its key loads that flag's file. */
  lemma FlagKeyRoundTrip(f: Flag, assets: set<string>)
    ensures ProcessFlagTexture(FlagKey(f), assets) == TextureLookup(true, LoadTexture(FlagFile(f), assets))
  {
  }
}
