/**
 * The store that remembers whether the banner of the home page is shown
 * (src/store/bannerStore.ts): three actions on one flag, kept in the
 * session storage.
 */
module BannerStore {
  import opened Wrappers

  /** Lines 32-35: the part of the state written to the session storage. */
  datatype Persisted = Persisted(isVisible: bool)

  /** Line 15 and the `persist` middleware: visible, unless the session storage holds a saved state. */
  function Rehydrate(saved: Option<Persisted>): (visible: bool)
    ensures saved.None? ==> visible
    ensures saved.Some? ==> visible == saved.value.isVisible
  {
    if saved.Some? then saved.value.isVisible else true
  }

  /** Lines 11-40. */
  class Banner {
    var isVisible: bool

    /** Lines 13-15: the store starts visible, then takes the saved state, if any. */
    constructor(saved: Option<Persisted>)
      ensures isVisible == Rehydrate(saved)
    {
      isVisible := Rehydrate(saved);
    }

    /** Lines 16-19. Toggling twice restores the flag. */
    method ToggleBanner()
      modifies this
      ensures isVisible == !old(isVisible)
    {
      isVisible := !isVisible;
    }

    /** Lines 20-23; a second call changes nothing. */
    method HideBanner()
      modifies this
      ensures !isVisible
    {
      isVisible := false;
    }

    /** Lines 24-27; a second call changes nothing. */
    method ShowBanner()
      modifies this
      ensures isVisible
    {
      isVisible := true;
    }

    /** Lines 32-35: only the flag is saved. */
    function Partialize(): (p: Persisted)
      reads this
      ensures p.isVisible == isVisible
    {
      Persisted(isVisible)
    }
  }

  /** A saved state restores the flag it was saved from. */
  lemma PersistRoundTrip(visible: bool)
    ensures Rehydrate(Some(Persisted(visible))) == visible
  {
  }
}
