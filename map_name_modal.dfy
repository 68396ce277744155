/** The dialog that asks for a new map's name. It keeps the typed name,
    clears it whenever the dialog opens, and turns key presses and clicks
    into "close" or "confirm with this name" requests to its owner; while
    the owner reports that it is saving, every request is suppressed. */
module MapNameModal {
  import opened Text

  datatype Key = Escape | Enter | OtherKey

  /** What an input asks the owner to do. */
  datatype Request = NoRequest | Close | Confirm(name: string)

  /** The confirm button's `disabled`. */
  predicate ConfirmDisabled(name: string, isLoading: bool) {
    Trim(name) == [] || isLoading
  }

  /** `handleConfirm`. */
  function ConfirmRequest(name: string, isLoading: bool): (r: Request)
    ensures r.Close? == false
    ensures r.Confirm? ==> r.name == Trim(name)
  {
    if Trim(name) != [] && !isLoading then Confirm(Trim(name)) else NoRequest
  }

  /** `handleKeyDown`. */
  function KeyRequest(key: Key, name: string, isLoading: bool): (r: Request)
    ensures r.Close? ==> key == Escape
    ensures r.Confirm? ==> key == Enter && r.name == Trim(name)
  {
    match key
    case Escape => if !isLoading then Close else NoRequest
    case Enter => if Trim(name) != [] && !isLoading then Confirm(Trim(name)) else NoRequest
    case OtherKey => NoRequest
  }

  /** A backdrop click, or the cancel button, which is disabled while loading. */
  function CloseRequest(isLoading: bool): (r: Request)
    ensures r.Close? <==> !isLoading
    ensures !r.Confirm?
  {
    if !isLoading then Close else NoRequest
  }

  /** Enter does what the confirm button does, and the button sends a
      request exactly when it is enabled. */
  lemma EnterMatchesButton(name: string, isLoading: bool)
    ensures KeyRequest(Enter, name, isLoading) == ConfirmRequest(name, isLoading)
    ensures ConfirmRequest(name, isLoading).Confirm? <==> !ConfirmDisabled(name, isLoading)
  {
  }

  /** Escape closes exactly when not loading, like the backdrop. */
  lemma EscapeMatchesBackdrop(name: string, isLoading: bool)
    ensures KeyRequest(Escape, name, isLoading) == CloseRequest(isLoading)
  {
  }

  /** A name confirmed by Enter or the button is never blank, has no
      whitespace at either end, and trimming it again changes nothing. */
  lemma ConfirmedNameIsClean(name: string, isLoading: bool)
    requires ConfirmRequest(name, isLoading).Confirm?
    ensures var n := ConfirmRequest(name, isLoading).name;
      && n != [] && Trim(n) == n
      && !IsWhitespace(n[0]) && !IsWhitespace(n[|n| - 1])
  {
    var n := Trim(name);
    assert ConfirmRequest(name, isLoading).name == n;
    TrimIsSlice(name);
    TrimIdempotent(name);
  }

  /** A name of whitespace only can never be confirmed. */
  lemma BlankNeverConfirmed(key: Key, name: string, isLoading: bool)
    requires AllWhitespace(name)
    ensures !KeyRequest(key, name, isLoading).Confirm? && !ConfirmRequest(name, isLoading).Confirm?
  {
    TrimEmptyIff(name);
  }

  /** The dialog. `isOpen` and `isLoading` are the owner's props; `requests`
      records the `onClose`/`onConfirm` calls in order. */
  class NameDialog {
    var isOpen: bool
    var isLoading: bool
    var name: string
    var requests: seq<Request>

    constructor ()
      ensures !isOpen && !isLoading && name == [] && requests == []
    {
      isOpen, isLoading, name, requests := false, false, [], [];
    }

    /** New props from the owner; the open effect clears the name when the
        dialog goes from closed to open. */
    method SetProps(open: bool, loading: bool)
      modifies this
      ensures isOpen == open && isLoading == loading && requests == old(requests)
      ensures open && !old(isOpen) ==> name == []
      ensures !(open && !old(isOpen)) ==> name == old(name)
    {
      if open && !isOpen {
        name := [];
      }
      isOpen, isLoading := open, loading;
    }

    /** The input's change handler; the input is disabled while loading. */
    method Type(text: string)
      modifies this
      ensures isOpen == old(isOpen) && isLoading == old(isLoading) && requests == old(requests)
      ensures name == (if old(isOpen) && !old(isLoading) then text else old(name))
    {
      if isOpen && !isLoading {
        name := text;
      }
    }

    /** Records a request; a closed dialog renders nothing and so receives no input. */
    method Emit(r: Request)
      modifies this
      ensures isOpen == old(isOpen) && isLoading == old(isLoading) && name == old(name)
      ensures requests == old(requests) + (if old(isOpen) && !r.NoRequest? then [r] else [])
    {
      if isOpen && !r.NoRequest? {
        requests := requests + [r];
      }
    }

    method PressKey(key: Key)
      modifies this
      ensures isOpen == old(isOpen) && isLoading == old(isLoading) && name == old(name)
      ensures var r := KeyRequest(key, old(name), old(isLoading));
        requests == old(requests) + (if old(isOpen) && !r.NoRequest? then [r] else [])
    {
      Emit(KeyRequest(key, name, isLoading));
    }

    method ClickConfirm()
      modifies this
      ensures isOpen == old(isOpen) && isLoading == old(isLoading) && name == old(name)
      ensures var r := ConfirmRequest(old(name), old(isLoading));
        requests == old(requests) + (if old(isOpen) && !r.NoRequest? then [r] else [])
    {
      Emit(ConfirmRequest(name, isLoading));
    }

    /** A backdrop click or the cancel button. */
    method ClickClose()
      modifies this
      ensures isOpen == old(isOpen) && isLoading == old(isLoading) && name == old(name)
      ensures requests == old(requests) + (if old(isOpen) && !old(isLoading) then [Close] else [])
    {
      Emit(CloseRequest(isLoading));
    }
  }
}
