/**
 * The `DiffApp` component's state (DiffApp.tsx lines 1-115): the text and
 * language of each pane and the snapshot of the last comparison, with the
 * handlers of the toolbar and of the two editor panes.
 *
 * `AppState` and the functions on it describe each handler's effect;
 * the class `DiffApp` holds the five state fields and its methods update
 * them as the setters do.  The lemmas relate handlers to each other.
 */
module DiffApp {
  import opened Wrappers
  import opened Languages

  /** `DiffState`: the two texts a comparison was made of. */
  datatype DiffState = DiffState(original: string, modified: string)

  /** The five state fields, as a value. */
  datatype AppState = AppState(
    leftContent: string,
    rightContent: string,
    leftLang: Language,
    rightLang: Language,
    diffResult: Option<DiffState>)

  /** The `useState` initial values (lines 13-17). */
  const Initial: AppState := AppState("", "", Text, Text, None)

  /** `handleCompare` (lines 22-24): snapshot both panes. */
  function Compared(s: AppState): AppState
  {
    s.(diffResult := Some(DiffState(s.leftContent, s.rightContent)))
  }

  /**
   * `handleSwap` (lines 26-35): exchange the panes' texts and languages;
   * a visible diff is re-snapshotted from the old right and left texts.
   */
  function Swapped(s: AppState): AppState
  {
    AppState(s.rightContent, s.leftContent, s.rightLang, s.leftLang,
             if s.diffResult.Some? then Some(DiffState(s.rightContent, s.leftContent)) else None)
  }

  /** `handleClear` (lines 37-41): empty both panes and drop the diff. */
  function Cleared(s: AppState): AppState
  {
    s.(leftContent := "", rightContent := "", diffResult := None)
  }

  /** `setLeftContent` as the left pane's `onValueChange` (line 75). */
  function LeftEdited(s: AppState, text: string): AppState
  {
    s.(leftContent := text)
  }

  /** `setRightContent` as the right pane's `onValueChange` (line 90). */
  function RightEdited(s: AppState, text: string): AppState
  {
    s.(rightContent := text)
  }

  /** `setLeftLang` as the left pane's `onLanguageChange` (line 76). */
  function LeftLangSet(s: AppState, lang: Language): AppState
  {
    s.(leftLang := lang)
  }

  /** `setRightLang` as the right pane's `onLanguageChange` (line 91). */
  function RightLangSet(s: AppState, lang: Language): AppState
  {
    s.(rightLang := lang)
  }

  /** The lower part of the page: the diff of the snapshot, or the hint (lines 101-111). */
  datatype Output = DiffOf(original: string, modified: string) | Hint

  function OutputOf(s: AppState): (o: Output)
    ensures o.DiffOf? <==> s.diffResult.Some?
    ensures o.DiffOf? ==> s.diffResult == Some(DiffState(o.original, o.modified))
  {
    match s.diffResult
    case Some(d) => DiffOf(d.original, d.modified)
    case None => Hint
  }

  /** The snapshot, if there is one, is of the panes as they are now. */
  predicate InSync(s: AppState)
  {
    s.diffResult.Some? ==> s.diffResult == Some(DiffState(s.leftContent, s.rightContent))
  }

  // ---------------------------------------------------------------------
  // Properties of the handlers.

  /** The page starts with empty plain-text panes and the hint, and clearing it changes nothing. */
  lemma InitialState()
    ensures Initial.leftContent == "" && Initial.rightContent == ""
    ensures Initial.leftLang == Text && Initial.rightLang == Text
    ensures OutputOf(Initial) == Hint && InSync(Initial)
    ensures Cleared(Initial) == Initial
  {
  }

  /** After Compare the diff shown is of the panes as they are, and the panes are untouched. */
  lemma CompareShowsPanes(s: AppState)
    ensures OutputOf(Compared(s)) == DiffOf(s.leftContent, s.rightContent)
    ensures InSync(Compared(s))
    ensures Compared(s).(diffResult := s.diffResult) == s
    ensures Compared(Compared(s)) == Compared(s)
  {
  }

  /**
   * Swapping twice restores the texts and the languages.  The snapshot is
   * restored only when it was in sync: a visible stale snapshot comes back
   * as the diff of the current panes.
   */
  lemma SwapTwice(s: AppState)
    ensures var t := Swapped(Swapped(s));
      && t.leftContent == s.leftContent && t.rightContent == s.rightContent
      && t.leftLang == s.leftLang && t.rightLang == s.rightLang
      && (t == s <==> InSync(s))
  {
  }

  /**
   * Swap keeps a hidden diff hidden; a visible diff becomes the diff of the
   * old right text against the old left text, which is the swapped panes'
   * own diff, so after a swap the snapshot is always in sync.
   */
  lemma SwapResnapshots(s: AppState)
    ensures s.diffResult.None? ==> Swapped(s).diffResult.None?
    ensures s.diffResult.Some? ==> Swapped(s) == Compared(Swapped(s))
    ensures s.diffResult.Some? ==> OutputOf(Swapped(s)) == DiffOf(s.rightContent, s.leftContent)
    ensures InSync(Swapped(s))
  {
  }

  /** Swapping and then comparing is comparing and then swapping, whatever the snapshot was. */
  lemma SwapCommutesWithCompare(s: AppState)
    ensures Compared(Swapped(s)) == Swapped(Compared(s))
  {
  }

  /** Clear keeps the languages, and is the initial state for whatever languages were chosen. */
  lemma ClearResets(s: AppState)
    ensures Cleared(s) == Initial.(leftLang := s.leftLang, rightLang := s.rightLang)
    ensures OutputOf(Cleared(s)) == Hint
    ensures Cleared(Cleared(s)) == Cleared(s)
  {
  }

  /**
   * Editing a pane changes only that pane's text; the snapshot is not
   * refreshed, so a visible diff goes out of sync unless the edit restores
   * the text it was taken of, until the next Compare.
   */
  lemma EditLeavesSnapshot(s: AppState, text: string)
    ensures LeftEdited(s, text).(leftContent := s.leftContent) == s
    ensures RightEdited(s, text).(rightContent := s.rightContent) == s
    ensures OutputOf(LeftEdited(s, text)) == OutputOf(s)
    ensures OutputOf(RightEdited(s, text)) == OutputOf(s)
    ensures InSync(s) && s.diffResult.Some? ==> (InSync(LeftEdited(s, text)) <==> text == s.leftContent)
    ensures InSync(s) && s.diffResult.Some? ==> (InSync(RightEdited(s, text)) <==> text == s.rightContent)
    ensures InSync(Compared(LeftEdited(s, text))) && InSync(Compared(RightEdited(s, text)))
  {
  }

  /** Choosing a language changes only that pane's language, and never the diff. */
  lemma LanguageIsDisplayOnly(s: AppState, lang: Language)
    ensures LeftLangSet(s, lang).(leftLang := s.leftLang) == s
    ensures RightLangSet(s, lang).(rightLang := s.rightLang) == s
    ensures OutputOf(LeftLangSet(s, lang)) == OutputOf(s) && OutputOf(RightLangSet(s, lang)) == OutputOf(s)
  {
  }

  // ---------------------------------------------------------------------
  // The component's state, updated in place.

  class DiffApp {
    var leftContent: string
    var rightContent: string
    var leftLang: Language
    var rightLang: Language
    var diffResult: Option<DiffState>

    /** The five fields as a value. */
    function State(): AppState
      reads this
    {
      AppState(leftContent, rightContent, leftLang, rightLang, diffResult)
    }

    constructor ()
      ensures State() == Initial
    {
      leftContent, rightContent := "", "";
      leftLang, rightLang := Text, Text;
      diffResult := None;
    }

    method Compare()
      modifies this
      ensures diffResult == Some(DiffState(old(leftContent), old(rightContent)))
      ensures State() == Compared(old(State()))
    {
      diffResult := Some(DiffState(leftContent, rightContent));
    }

    method Swap()
      modifies this
      ensures leftContent == old(rightContent) && rightContent == old(leftContent)
      ensures leftLang == old(rightLang) && rightLang == old(leftLang)
      ensures diffResult == if old(diffResult).Some? then Some(DiffState(old(rightContent), old(leftContent))) else None
      ensures State() == Swapped(old(State()))
    {
      var l, r, ll, rl := leftContent, rightContent, leftLang, rightLang;
      leftContent := r;
      rightContent := l;
      leftLang := rl;
      rightLang := ll;
      if diffResult.Some? {
        diffResult := Some(DiffState(r, l));
      }
    }

    method Clear()
      modifies this
      ensures leftContent == "" && rightContent == "" && diffResult == None
      ensures State() == Cleared(old(State()))
    {
      leftContent := "";
      rightContent := "";
      diffResult := None;
    }

    /** The left pane's `onValueChange`. */
    method EditLeft(text: string)
      modifies this`leftContent
      ensures leftContent == text
      ensures State() == LeftEdited(old(State()), text)
    {
      leftContent := text;
    }

    /** The right pane's `onValueChange`. */
    method EditRight(text: string)
      modifies this`rightContent
      ensures rightContent == text
      ensures State() == RightEdited(old(State()), text)
    {
      rightContent := text;
    }

    /** The left pane's `onLanguageChange`. */
    method SetLeftLang(lang: Language)
      modifies this`leftLang
      ensures leftLang == lang
      ensures State() == LeftLangSet(old(State()), lang)
    {
      leftLang := lang;
    }

    /** The right pane's `onLanguageChange`. */
    method SetRightLang(lang: Language)
      modifies this`rightLang
      ensures rightLang == lang
      ensures State() == RightLangSet(old(State()), lang)
    {
      rightLang := lang;
    }

    /** What is shown below the toolbar. */
    method Output() returns (o: Output)
      ensures o == OutputOf(State())
      ensures o.DiffOf? <==> diffResult.Some?
    {
      match diffResult
      case Some(d) => o := DiffOf(d.original, d.modified);
      case None => o := Hint;
    }
  }
}
