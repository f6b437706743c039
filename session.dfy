/**
 * The page state `actualPassword`, `passwordVisible` and the text of the
 * password element (index.js:17-18), and the three handlers that change it:
 * validOption (index.js:32-44), generatePassword (index.js:50-72) and
 * togglePasswordVisibility (index.js:176-188). Styles, classes and icons are
 * not modelled.
 */
module Session {
  import opened Alphabets
  import PasswordBuilder
  import Reveal

  /** The text shown when no character class is ticked. */
  const NO_CLASS_MESSAGE: string := "Select at least one character type."

  /** The mask the page passes to the animation and uses when hiding. */
  const MASK: char := '*'

  /** A snapshot of the page state. */
  datatype View = View(actualPassword: string, passwordVisible: bool, display: string)

  /**
   * While a password is held, the display shows it when visible and its
   * masked form otherwise.
   */
  predicate Consistent(v: View) {
    v.actualPassword != "" ==>
      v.display == if v.passwordVisible then v.actualPassword else Reveal.Repeat(MASK, |v.actualPassword|)
  }

  /** The effect of togglePasswordVisibility on a snapshot. */
  function Toggled(v: View): View {
    if v.actualPassword == "" then v
    else
      var visible := !v.passwordVisible;
      View(v.actualPassword, visible,
           if visible then v.actualPassword else Reveal.Repeat(MASK, |v.actualPassword|))
  }

  /** Toggling always leaves a consistent state and keeps the password. */
  lemma ToggledConsistent(v: View)
    ensures Consistent(Toggled(v))
    ensures Toggled(v).actualPassword == v.actualPassword
    ensures v.actualPassword != "" ==> Toggled(v).passwordVisible == !v.passwordVisible
  {
  }

  /** Toggling twice restores a consistent state. */
  lemma ToggleTwice(v: View)
    requires Consistent(v)
    ensures Toggled(Toggled(v)) == v
  {
  }

  /** Without a password, toggling changes nothing. */
  lemma ToggleWithoutPassword(v: View)
    requires v.actualPassword == ""
    ensures Toggled(v) == v
  {
  }

  /**
   * The end of the animation as written (index.js:97): only the text is
   * replaced, by the mask repeated once per password character.
   */
  function AnimationEnd(v: View): View {
    View(v.actualPassword, v.passwordVisible, Reveal.Repeat(MASK, |v.actualPassword|))
  }

  /**
   * A click on the show button between two frames (index.js:180-182 runs
   * while generatePassword awaits) followed by the end of the animation: the
   * page is left marked visible while it shows only masks, and the next
   * click leaves the text as it is.
   */
  lemma ClickDuringAnimation(pw: string, shown: string, k: nat)
    requires k < |pw| && pw[k] != MASK
    ensures AnimationEnd(Toggled(View(pw, false, shown))).passwordVisible
    ensures !Consistent(AnimationEnd(Toggled(View(pw, false, shown))))
    ensures Toggled(AnimationEnd(Toggled(View(pw, false, shown)))).display == AnimationEnd(Toggled(View(pw, false, shown))).display
  {
    var v := AnimationEnd(Toggled(View(pw, false, shown)));
    assert v.display[k] == MASK;
    assert v.display != v.actualPassword;
  }

  /**
   * The end of the animation with visibility reset to hidden, which is what
   * the button reset to "off" after the animation (index.js:70-71) displays.
   */
  function AnimationEndHidden(v: View): View {
    View(v.actualPassword, false, Reveal.Repeat(MASK, |v.actualPassword|))
  }

  /**
   * With the reset at the end, a click during the animation leaves a
   * consistent hidden page, and the next click shows the password.
   */
  lemma ClickDuringAnimationHidden(pw: string, shown: string)
    requires pw != ""
    ensures !AnimationEndHidden(Toggled(View(pw, false, shown))).passwordVisible
    ensures Consistent(AnimationEndHidden(Toggled(View(pw, false, shown))))
    ensures Toggled(AnimationEndHidden(Toggled(View(pw, false, shown)))).display == pw
  {
  }

  class PasswordSession {
    var actualPassword: string
    var passwordVisible: bool
    var display: string

    function State(): View
      reads this
    {
      View(actualPassword, passwordVisible, display)
    }

    /** The state at page load: no password, hidden, and the page's initial text. */
    constructor (initialDisplay: string)
      ensures actualPassword == "" && !passwordVisible && display == initialDisplay
      ensures Consistent(State())
    {
      actualPassword := "";
      passwordVisible := false;
      display := initialDisplay;
    }

    /**
     * validOption: false exactly when no class is ticked, and then the
     * password is forgotten and the message is shown.
     */
    method ValidOption(o: Options) returns (ok: bool)
      modifies this
      ensures ok == AnyEnabled(o)
      ensures ok ==> unchanged(this)
      ensures !ok ==> actualPassword == "" && display == NO_CLASS_MESSAGE && passwordVisible == old(passwordVisible)
      ensures Consistent(old(State())) ==> Consistent(State())
    {
      var selected := o.lowercase || o.uppercase || o.numbers || o.symbols;
      if !selected {
        actualPassword := "";
        display := NO_CLASS_MESSAGE;
        return false;
      }
      return true;
    }

    /**
     * generatePassword, with the animation run to completion: the display
     * goes through the reveal frames and ends fully masked. The frames shown
     * are returned.
     */
    method GeneratePassword(length: int, o: Options) returns (ghost frames: seq<string>)
      modifies this
      ensures !AnyEnabled(o) ==>
        actualPassword == "" && display == NO_CLASS_MESSAGE && passwordVisible == old(passwordVisible) && frames == []
      ensures AnyEnabled(o) ==>
        && |actualPassword| == PasswordBuilder.Max(length, |Enabled(o)|)
        && (forall t :: 0 <= t < |actualPassword| ==> actualPassword[t] in Pool(o))
        && (forall t, c :: 0 <= t < |actualPassword| && !IsEnabled(o, c) ==> actualPassword[t] !in Alphabet(c))
        && (forall c :: IsEnabled(o, c) ==> exists t :: 0 <= t < |actualPassword| && actualPassword[t] in Alphabet(c))
        && !passwordVisible
        && |frames| == |actualPassword| + 1
        && (forall i :: 0 <= i < |actualPassword| ==> Reveal.IsFrame(frames[i], i, |actualPassword|, MASK))
        && display == frames[|actualPassword|] == Reveal.Repeat(MASK, |actualPassword|)
        && State() == AnimationEndHidden(old(State()).(actualPassword := actualPassword))
      ensures Consistent(old(State())) ==> Consistent(State())
    {
      frames := [];
      var ok := ValidOption(o);
      if !ok {
        return;
      }
      var password, required := PasswordBuilder.CreatePassword(length, o);
      actualPassword := password;
      passwordVisible := false;
      var shown := Reveal.RevealFrames(actualPassword, MASK);
      display := shown[|shown| - 1];
      frames := shown;
    }

    /** togglePasswordVisibility. */
    method TogglePasswordVisibility()
      modifies this
      ensures old(actualPassword) == "" ==> unchanged(this)
      ensures old(actualPassword) != "" ==>
        && actualPassword == old(actualPassword)
        && passwordVisible == !old(passwordVisible)
        && display == if passwordVisible then actualPassword else Reveal.Repeat(MASK, |actualPassword|)
      ensures State() == Toggled(old(State()))
      ensures Consistent(State())
    {
      if actualPassword == "" {
        return;
      }
      passwordVisible := !passwordVisible;
      if passwordVisible {
        display := actualPassword;
      } else {
        display := Reveal.Repeat(MASK, |actualPassword|);
      }
    }
  }
}
