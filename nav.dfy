/**
 * The client's grammar list (src/components/Nav.tsx): the grammars the user
 * added, each with the highlighter chosen for it, the selected grammar, the
 * add-grammar form and the messages sent to the server. A missing selection
 * is the empty string: every use of the selection in the component tests its
 * truthiness, and the empty string is the one falsy string.
 */
module Nav {
  import opened Protocol

  const DefaultHighlighter: string := "text"

  /** A grammar folder and the highlighter its code is shown with. */
  datatype TsGrammar = TsGrammar(folder: string, highlighter: string)

  function Folders(gs: seq<TsGrammar>): (fs: seq<string>)
    ensures |fs| == |gs| && forall i :: 0 <= i < |gs| ==> fs[i] == gs[i].folder
  {
    seq(|gs|, i requires 0 <= i < |gs| => gs[i].folder)
  }

  /** `findIndex` on folders: the first index, or -1. */
  function FolderIndex(gs: seq<TsGrammar>, folder: string): (i: int)
    ensures -1 <= i < |gs|
    ensures i >= 0 ==> gs[i].folder == folder && forall j :: 0 <= j < i ==> gs[j].folder != folder
    ensures i == -1 <==> folder !in Folders(gs)
  {
    if gs == [] then -1
    else if gs[0].folder == folder then 0
    else
      var k := FolderIndex(gs[1..], folder);
      assert forall j :: 1 <= j < |gs| ==> gs[j] == gs[1..][j - 1];
      if k == -1 then -1 else k + 1
  }

  /** The list after adding a folder: unchanged when present, else the folder with the default highlighter at the end. */
  function AppendIfAbsent(gs: seq<TsGrammar>, folder: string): (r: seq<TsGrammar>)
    ensures folder in Folders(gs) ==> r == gs
    ensures folder !in Folders(gs) ==> r == gs + [TsGrammar(folder, DefaultHighlighter)]
    ensures folder in Folders(r)
  {
    if FolderIndex(gs, folder) != -1 then gs
    else
      var r := gs + [TsGrammar(folder, DefaultHighlighter)];
      assert r[|gs|].folder == folder;
      r
  }

  /** The list after removing a folder: every entry for it goes, the others stay in order. */
  function RemoveFolder(gs: seq<TsGrammar>, folder: string): (r: seq<TsGrammar>)
    ensures |r| <= |gs|
  {
    if gs == [] then []
    else
      var rest := RemoveFolder(gs[..|gs| - 1], folder);
      var last := gs[|gs| - 1];
      if last.folder == folder then rest else rest + [last]
  }

  /** Removal shortens the list exactly when the folder is in it. */
  lemma {:induction false} RemoveFolderShrinks(gs: seq<TsGrammar>, folder: string)
    ensures |RemoveFolder(gs, folder)| == |gs| <==> folder !in Folders(gs)
    decreases |gs|
  {
    if gs != [] {
      var init := gs[..|gs| - 1];
      RemoveFolderShrinks(init, folder);
      assert Folders(gs) == Folders(init) + [gs[|gs| - 1].folder];
    }
  }

  /** An entry survives removal exactly when it was there and belongs to another folder. */
  lemma {:induction false} RemoveFolderMembers(gs: seq<TsGrammar>, folder: string, g: TsGrammar)
    ensures g in RemoveFolder(gs, folder) <==> g in gs && g.folder != folder
    decreases |gs|
  {
    if gs != [] {
      var init := gs[..|gs| - 1];
      RemoveFolderMembers(init, folder, g);
      assert gs == init + [gs[|gs| - 1]];
    }
  }

  /** Removing from a list with one more entry at the end removes from the list, then keeps or drops that entry. */
  lemma RemoveFolderSnoc(xs: seq<TsGrammar>, x: TsGrammar, folder: string)
    ensures RemoveFolder(xs + [x], folder) == RemoveFolder(xs, folder) + (if x.folder == folder then [] else [x])
  {
    var zs := xs + [x];
    assert zs[..|zs| - 1] == xs;
  }

  /** Removal works entry by entry, so it keeps the order of what stays. */
  lemma {:induction false} RemoveFolderDistributes(xs: seq<TsGrammar>, ys: seq<TsGrammar>, folder: string)
    ensures RemoveFolder(xs + ys, folder) == RemoveFolder(xs, folder) + RemoveFolder(ys, folder)
    decreases |ys|
  {
    if ys == [] {
      assert xs + ys == xs;
    } else {
      var init := ys[..|ys| - 1];
      var last := ys[|ys| - 1];
      var tail := if last.folder == folder then [] else [last];
      calc {
        RemoveFolder(xs + ys, folder);
        { assert xs + ys == (xs + init) + [last]; }
        RemoveFolder((xs + init) + [last], folder);
        { RemoveFolderSnoc(xs + init, last, folder); }
        RemoveFolder(xs + init, folder) + tail;
        { RemoveFolderDistributes(xs, init, folder); }
        RemoveFolder(xs, folder) + RemoveFolder(init, folder) + tail;
        { RemoveFolderSnoc(init, last, folder); assert ys == init + [last]; }
        RemoveFolder(xs, folder) + RemoveFolder(ys, folder);
      }
    }
  }

  /** A list without the folder is left as it is. */
  lemma {:induction false} RemoveAbsentFolder(gs: seq<TsGrammar>, folder: string)
    requires folder !in Folders(gs)
    ensures RemoveFolder(gs, folder) == gs
    decreases |gs|
  {
    if gs != [] {
      var init := gs[..|gs| - 1];
      assert Folders(init) == Folders(gs)[..|gs| - 1];
      RemoveAbsentFolder(init, folder);
      assert gs[|gs| - 1].folder == Folders(gs)[|gs| - 1];
      assert gs == init + [gs[|gs| - 1]];
    }
  }

  /** Removing a folder just added restores the list. */
  lemma RemoveUndoesAdd(gs: seq<TsGrammar>, folder: string)
    requires folder !in Folders(gs)
    ensures RemoveFolder(AppendIfAbsent(gs, folder), folder) == gs
  {
    RemoveFolderDistributes(gs, [TsGrammar(folder, DefaultHighlighter)], folder);
    RemoveAbsentFolder(gs, folder);
    assert [TsGrammar(folder, DefaultHighlighter)][..0] == [];
  }

  /** The highlighter change: the first entry for the folder takes the new highlighter; nothing else changes. */
  function SetHighlighter(gs: seq<TsGrammar>, folder: string, highlighter: string): (r: seq<TsGrammar>)
    ensures Folders(r) == Folders(gs)
    ensures FolderIndex(gs, folder) == -1 ==> r == gs
    ensures FolderIndex(gs, folder) != -1 ==> r == gs[FolderIndex(gs, folder) := TsGrammar(folder, highlighter)]
  {
    var i := FolderIndex(gs, folder);
    if i == -1 then gs else gs[i := gs[i].(highlighter := highlighter)]
  }

  /** The highlighter a grammar change selects: the stored one, or the default when there is none or it is empty. */
  function HighlighterFor(gs: seq<TsGrammar>, folder: string): (h: string)
    ensures h != ""
    ensures FolderIndex(gs, folder) == -1 ==> h == DefaultHighlighter
    ensures FolderIndex(gs, folder) != -1 && gs[FolderIndex(gs, folder)].highlighter != "" ==>
              h == gs[FolderIndex(gs, folder)].highlighter
  {
    var i := FolderIndex(gs, folder);
    if i != -1 && gs[i].highlighter != "" then gs[i].highlighter else DefaultHighlighter
  }

  /** Switching back to a grammar shows the highlighter last chosen for it. */
  lemma HighlighterRemembered(gs: seq<TsGrammar>, folder: string, highlighter: string)
    requires folder in Folders(gs) && highlighter != ""
    ensures HighlighterFor(SetHighlighter(gs, folder, highlighter), folder) == highlighter
  {
    var i := FolderIndex(gs, folder);
    var r := SetHighlighter(gs, folder, highlighter);
    assert Folders(r) == Folders(gs);
    assert forall j :: 0 <= j < |r| ==> r[j].folder == gs[j].folder;
    assert FolderIndex(r, folder) == i;
  }

  /** A new grammar starts with the default highlighter. */
  lemma AddedGrammarUsesDefault(gs: seq<TsGrammar>, folder: string)
    requires folder !in Folders(gs)
    ensures HighlighterFor(AppendIfAbsent(gs, folder), folder) == DefaultHighlighter
  {
    var r := AppendIfAbsent(gs, folder);
    assert FolderIndex(r, folder) == |gs| by {
      assert forall j :: 0 <= j < |gs| ==> r[j].folder == Folders(gs)[j];
    }
  }

  class NavState {
    var grammars: seq<TsGrammar>
    /** The selected folder; empty when none is selected. */
    var selected: string
    var highlighter: string
    var input: string
    var modalOpen: bool
    /** Messages sent to the server, oldest first. */
    var sent: seq<ClientMessage>

    constructor (grammars: seq<TsGrammar>, selected: string)
      ensures this.grammars == grammars && this.selected == selected
      ensures highlighter == DefaultHighlighter && input == "" && !modalOpen && sent == []
    {
      this.grammars := grammars;
      this.selected := selected;
      highlighter := DefaultHighlighter;
      input := "";
      modalOpen := false;
      sent := [];
    }

    /** The add button opens the modal; typing in its field sets the input. */
    method OpenAddModal()
      modifies this`modalOpen
      ensures modalOpen
    {
      modalOpen := true;
    }

    method TypeFolder(value: string)
      modifies this`input
      ensures input == value
    {
      input := value;
    }

    /**
     * `addGrammar`: with a non-empty input, send `add` when there is a socket,
     * add the folder if absent, select it, clear the input and close the
     * modal; with an empty input, do nothing.
     */
    method AddGrammar(hasSocket: bool)
      modifies this`grammars, this`selected, this`input, this`modalOpen, this`sent
      ensures old(input) == "" ==>
                grammars == old(grammars) && selected == old(selected) && input == old(input)
                && modalOpen == old(modalOpen) && sent == old(sent)
      ensures old(input) != "" ==>
                && grammars == AppendIfAbsent(old(grammars), old(input))
                && selected == old(input) && input == "" && !modalOpen
                && sent == old(sent) + (if hasSocket then [Add(old(input))] else [])
    {
      var folder := input;
      if folder != "" {
        if hasSocket {
          sent := sent + [Add(folder)];
        }
        grammars := AppendIfAbsent(grammars, folder);
        selected := folder;
        input := "";
        modalOpen := false;
      }
    }

    /**
     * `removeGrammar`: only with a socket and a selection; sends `remove`,
     * drops every entry for the selected folder and selects the last folder
     * left, or nothing.
     */
    method RemoveGrammar(hasSocket: bool)
      modifies this`grammars, this`selected, this`sent
      ensures !(hasSocket && old(selected) != "") ==>
                grammars == old(grammars) && selected == old(selected) && sent == old(sent)
      ensures hasSocket && old(selected) != "" ==>
                && sent == old(sent) + [Remove(old(selected))]
                && grammars == RemoveFolder(old(grammars), old(selected))
                && selected == (if grammars == [] then "" else grammars[|grammars| - 1].folder)
    {
      if hasSocket && selected != "" {
        sent := sent + [Remove(selected)];
        grammars := RemoveFolder(grammars, selected);
        selected := if grammars == [] then "" else grammars[|grammars| - 1].folder;
      }
    }

    /** `handleGrammarChange`: a non-empty value becomes the selection and brings its highlighter. */
    method GrammarChange(value: string)
      modifies this`selected, this`highlighter
      ensures value == "" ==> selected == old(selected) && highlighter == old(highlighter)
      ensures value != "" ==> selected == value && highlighter == HighlighterFor(grammars, value)
    {
      if value != "" {
        selected := value;
        highlighter := HighlighterFor(grammars, value);
      }
    }

    /** `handleHighlighterChange`: stores a non-empty highlighter on the selected grammar's first entry. */
    method HighlighterChange(value: string)
      modifies this`grammars, this`highlighter
      ensures !(value != "" && selected != "" && FolderIndex(old(grammars), selected) != -1) ==>
                grammars == old(grammars) && highlighter == old(highlighter)
      ensures value != "" && selected != "" && FolderIndex(old(grammars), selected) != -1 ==>
                grammars == SetHighlighter(old(grammars), selected, value) && highlighter == value
    {
      if value != "" && selected != "" {
        var index := FolderIndex(grammars, selected);
        if index != -1 {
          grammars := grammars[index := grammars[index].(highlighter := value)];
          highlighter := value;
        }
      }
    }
  }
}
