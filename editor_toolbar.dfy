/** The editor toolbar's block switcher and the refresh of its buttons.

    The Tiptap editor is not part of this model: what it reports is a
    parameter (the node the cursor is in, and per command whether the command
    is enabled and active, or that asking threw). */
module EditorToolbar {
  import opened Wrappers

  /** The block the cursor is in, as `editor.isActive('heading', {level})` sees it. */
  datatype ActiveNode = HeadingNode(level: int) | OtherNode

  /** What the switcher's change handler asks the editor to do. */
  datatype BlockCommand = SetHeading(level: int) | SetParagraph

  /** The values of the switcher's four options. */
  const SwitcherOptions: seq<string> := ["paragraph", "h2", "h3", "h4"]

  /** The node the cursor is in after a block command ran. */
  function NodeAfter(cmd: BlockCommand): ActiveNode {
    match cmd
    case SetHeading(level) => HeadingNode(level)
    case SetParagraph => OtherNode
  }

  /** `updateToolbarState`: the option the switcher shows for the current node. */
  function SwitcherValue(node: ActiveNode): (v: string)
    ensures v in SwitcherOptions
    ensures v == "paragraph" <==> !(node.HeadingNode? && 2 <= node.level <= 4)
    ensures node.HeadingNode? && 2 <= node.level <= 4 ==> v == SwitcherOptions[node.level - 1]
  {
    if node == HeadingNode(2) then "h2"
    else if node == HeadingNode(3) then "h3"
    else if node == HeadingNode(4) then "h4"
    else "paragraph"
  }

  /** `buildBlockSwitcher`'s change handler: the option's value back to a command. */
  function OnSwitcherChange(value: string): (cmd: BlockCommand)
    ensures value in SwitcherOptions ==> SwitcherValue(NodeAfter(cmd)) == value
    ensures cmd.SetHeading? <==> value in SwitcherOptions[1..]
  {
    match value
    case "h2" => SetHeading(2)
    case "h3" => SetHeading(3)
    case "h4" => SetHeading(4)
    case _ => SetParagraph
  }

  /** Choosing the option the switcher shows re-applies the current block:
      the same heading level for headings 2 to 4, a paragraph for anything else. */
  lemma SwitcherRoundTrip(node: ActiveNode)
    ensures OnSwitcherChange(SwitcherValue(node)) ==
      if node.HeadingNode? && 2 <= node.level <= 4 then SetHeading(node.level) else SetParagraph
    ensures node.HeadingNode? && 2 <= node.level <= 4 ==> NodeAfter(OnSwitcherChange(SwitcherValue(node))) == node
  {
  }

  // ---------------------------------------------------------------------
  // The command buttons.

  /** The names of the toolbar's commands, in toolbar order. */
  const CommandNames: seq<string> := ["bold", "italic", "underline", "strike", "code",
    "bulletList", "orderedList", "blockquote", "codeblock", "horizontalRule", "link",
    "clear", "undo", "redo"]

  /** The commands whose `isActive` is the constant false. */
  const NeverActive: set<string> := {"horizontalRule", "clear", "undo", "redo"}

  /** What asking the editor about one command gave: `isEnabled` and `isActive`, or an exception. */
  datatype Probe = Answered(enabled: bool, active: bool) | Threw

  /** A toolbar button: its `data-command`, `disabled`, and whether it has the `is-active` class. */
  class Button {
    const command: Option<string>
    var disabled: bool
    var active: bool

    constructor (command: Option<string>)
      ensures this.command == command && !disabled && !active
    {
      this.command := command;
      disabled := false;
      active := false;
    }
  }

  /** The toolbar: the switcher's value (None when the toolbar has no switcher) and its buttons in document order. */
  class Toolbar {
    var switcher: Option<string>
    const buttons: seq<Button>

    constructor (hasSwitcher: bool, buttons: seq<Button>)
      ensures this.buttons == buttons
      ensures switcher == if hasSwitcher then Some("paragraph") else None
    {
      switcher := if hasSwitcher then Some("paragraph") else None;
      this.buttons := buttons;
    }
  }

  /** The `disabled` and `is-active` a button of a known command gets. */
  function ButtonState(name: string, probe: string -> Probe): (state: (bool, bool))
    ensures probe(name).Threw? ==> state == (true, false)
    ensures probe(name).Answered? ==> state.0 == !probe(name).enabled
    ensures state.1 ==> name !in NeverActive && probe(name).Answered? && probe(name).active
  {
    match probe(name)
    case Threw => (true, false)
    case Answered(enabled, active) => (!enabled, active && name !in NeverActive)
  }

  /** `updateToolbarState`: sets the switcher from the current node, then each
      button of a known command from the editor's answers; a button whose
      command is unknown (the fullscreen button) is left alone. */
  method UpdateToolbarState(toolbar: Toolbar?, node: ActiveNode, probe: string -> Probe)
    requires toolbar != null ==> forall i, j :: 0 <= i < j < |toolbar.buttons| ==> toolbar.buttons[i] != toolbar.buttons[j]
    modifies toolbar, if toolbar == null then {} else set b | b in toolbar.buttons
    ensures toolbar != null ==> toolbar.switcher == if old(toolbar.switcher).Some? then Some(SwitcherValue(node)) else None
    ensures toolbar != null ==> forall b :: b in toolbar.buttons ==>
      if b.command.Some? && b.command.value in CommandNames
      then (b.disabled, b.active) == ButtonState(b.command.value, probe)
      else b.disabled == old(b.disabled) && b.active == old(b.active)
  {
    if toolbar == null {
      return;
    }
    if toolbar.switcher.Some? {
      toolbar.switcher := Some(SwitcherValue(node));
    }
    var i := 0;
    while i < |toolbar.buttons|
      invariant 0 <= i <= |toolbar.buttons|
      invariant toolbar.switcher == if old(toolbar.switcher).Some? then Some(SwitcherValue(node)) else None
      invariant forall k :: 0 <= k < i ==> var b := toolbar.buttons[k];
        if b.command.Some? && b.command.value in CommandNames
        then (b.disabled, b.active) == ButtonState(b.command.value, probe)
        else b.disabled == old(b.disabled) && b.active == old(b.active)
      invariant forall k :: i <= k < |toolbar.buttons| ==>
        toolbar.buttons[k].disabled == old(toolbar.buttons[k].disabled) && toolbar.buttons[k].active == old(toolbar.buttons[k].active)
    {
      var btn := toolbar.buttons[i];
      if btn.command.Some? && btn.command.value in CommandNames {
        var state := ButtonState(btn.command.value, probe);
        btn.disabled, btn.active := state.0, state.1;
      }
      i := i + 1;
    }
  }
}
