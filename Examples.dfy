/** Sample ship names and what the scan of each dispatches and applies. */
module Examples {
  import opened Tables
  import opened Dispatcher
  import opened Scanner

  /** "Ship#Sb": sail colour black; the value is used and the scan ends. */
  lemma SailBlack()
    ensures Directives("Ship#Sb", {}) == [Dispatch(5, 'S', 'b')]
    ensures Applied(Directives("Ship#Sb", {}), {}, {}) == [SailColor(Black)]
  {
  }

  /** "Ship#Fx": an unknown flag key; the value is still used, and no flag is applied. */
  lemma UnknownFlag(assets: set<string>)
    ensures Directives("Ship#Fx", {}) == [Dispatch(5, 'F', 'x')]
    ensures Applied(Directives("Ship#Fx", {}), assets, {}) == []
  {
  }

  /** "Ship#Z": an unknown operator at the end of the name gets a blank value and applies nothing. */
  lemma UnknownOperatorAtEnd()
    ensures Directives("Ship#Z", {}) == [Dispatch(5, 'Z', ' ')]
    ensures Applied(Directives("Ship#Z", {}), {}, {}) == []
  {
  }

  /** "Ship#XSb": an unknown operator does not use its value, which is read as the next operator. */
  lemma UnknownOperatorThenSail()
    ensures Directives("Ship#XSb", {}) == [Dispatch(5, 'X', 'S'), Dispatch(6, 'S', 'b')]
    ensures Applied(Directives("Ship#XSb", {}), {}, {}) == [SailColor(Black)]
  {
  }

  /** "Ship#Sb" when handling 'S' throws: nothing is applied and 'b' is read as an operator. */
  lemma FaultRereadsValue()
    ensures Directives("Ship#Sb", {5}) == [Dispatch(5, 'S', 'b'), Dispatch(6, 'b', ' ')]
    ensures Applied(Directives("Ship#Sb", {5}), {}, {5}) == []
  {
  }

  /** "#F#Dp": the flag operator swallows the second '#' as its (unknown) value, then a sail texture is loaded. */
  lemma SentinelAsValue()
    ensures Directives("#F#Dp", {}) == [Dispatch(1, 'F', '#'), Dispatch(3, 'D', 'p')]
    ensures Applied(Directives("#F#Dp", {}), {"flags\\PirateFrog.png"}, {})
         == [SailTexture(Image("flags\\PirateFrog.png"))]
  {
    assert FlagFile(PirateFrog) == "flags\\PirateFrog.png";
  }
}
