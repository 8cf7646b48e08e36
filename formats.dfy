/** The format menu shown for a new file and the resolution of the chosen
    entry to the extension the file is renamed to. */
module Formats {

  /** What an interactive prompt gives back: the operator's answer, or
      `Closed` when the prompt fails (for instance, its input stream closed). */
  datatype Reply<T> = Answered(value: T) | Closed

  /** The menu entries, in the order they are offered. */
  const Menu: seq<string> := ["Rust", "Python", "HTML", "JavaScript", "C++", "Other"]

  /** The selection prompt only ever answers with a position in the menu. */
  type Selection = i: nat | i < 6

  /** The extension used when the operator types an empty custom extension. */
  const DefaultExtension: string := "txt"

  /** The arm of the extension `match` that a menu entry falls into: a fixed
      extension, the free-text prompt of "Other", or the `_` wildcard. */
  datatype Arm = Fixed(ext: string) | AskCustom | Wildcard

  function ArmFor(entry: string): Arm
  {
    if entry == "Rust" then Fixed("rs")
    else if entry == "Python" then Fixed("py")
    else if entry == "HTML" then Fixed("html")
    else if entry == "JavaScript" then Fixed("js")
    else if entry == "C++" then Fixed("cpp")
    else if entry == "Other" then AskCustom
    else Wildcard
  }

  /** The resolved extension, and whether the empty-extension warning was
      written to standard error while resolving it. */
  datatype Resolution = Resolution(ext: string, warned: bool)

  /** Resolves the selected menu entry to an extension. `custom` is the reply
      to the free-text prompt, which is only put to the operator for "Other".
      Resolution fails exactly when that prompt is asked and fails; every
      extension it yields is non-empty, and the warning is given exactly when
      the operator typed an empty custom extension. */
  function Resolve(selection: Selection, custom: Reply<string>): (r: Reply<Resolution>)
    ensures r.Closed? <==> Menu[selection] == "Other" && custom.Closed?
    ensures r.Answered? ==> r.value.ext != ""
    ensures r.Answered? ==> (r.value.warned <==> Menu[selection] == "Other" && custom == Answered(""))
  {
    match ArmFor(Menu[selection])
    case Fixed(e) => Answered(Resolution(e, false))
    case AskCustom =>
      (match custom
       case Closed => Closed
       case Answered(text) =>
         if text == "" then Answered(Resolution(DefaultExtension, true))
         else Answered(Resolution(text, false)))
    case Wildcard => Answered(Resolution(DefaultExtension, false))
  }

  /** Every menu entry is caught by one of the six named arms, so the `_`
      arm of the match can never be taken. */
  lemma WildcardUnreachable(i: int)
    requires 0 <= i < |Menu|
    ensures ArmFor(Menu[i]) != Wildcard
    ensures ArmFor(Menu[i]) == AskCustom <==> i == 5
  {
  }

  /** Each named format resolves to its fixed extension, without a warning,
      whatever the free-text prompt would have answered. */
  lemma NamedFormatsResolve(custom: Reply<string>)
    ensures Resolve(0, custom) == Answered(Resolution("rs", false))
    ensures Resolve(1, custom) == Answered(Resolution("py", false))
    ensures Resolve(2, custom) == Answered(Resolution("html", false))
    ensures Resolve(3, custom) == Answered(Resolution("js", false))
    ensures Resolve(4, custom) == Answered(Resolution("cpp", false))
  {
  }

  /** "Other" with an empty answer falls back to "txt" and warns; with a
      non-empty answer it yields exactly the text typed, unchanged. */
  lemma OtherResolves(text: string)
    ensures text == "" ==> Resolve(5, Answered(text)) == Answered(Resolution(DefaultExtension, true))
    ensures text != "" ==> Resolve(5, Answered(text)) == Answered(Resolution(text, false))
  {
  }

  /** The free-text answer matters only when "Other" is selected. */
  lemma CustomTextOnlyForOther(selection: Selection, c1: Reply<string>, c2: Reply<string>)
    requires Menu[selection] != "Other"
    ensures Resolve(selection, c1) == Resolve(selection, c2)
  {
  }

  /** The five named formats resolve to five different extensions, and none
      of them is the fallback "txt", so a file renamed with a fixed entry
      always says which entry was chosen. */
  lemma FixedExtensionsDistinct(i: Selection, j: Selection, c: Reply<string>)
    requires i < 5 && j < 5
    ensures Resolve(i, c).Answered? && Resolve(i, c).value.ext != DefaultExtension
    ensures Resolve(i, c) == Resolve(j, c) ==> i == j
  {
  }
}
