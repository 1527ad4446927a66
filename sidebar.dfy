/**
 * The navigation sidebar's two pieces of state: whether the sidebar is
 * collapsed to its icon rail, and which submenus are expanded.
 */
module SidebarState {
  import opened Toggling

  class Sidebar {
    /** Collapsed to the narrow icon rail. */
    var isCollapsed: bool
    /** Titles of the menu items whose submenu is open. */
    var expandedItems: seq<Item>

    /** Both pieces of state start empty: expanded sidebar, every submenu closed. */
    constructor()
      ensures !isCollapsed && expandedItems == []
    {
      isCollapsed := false;
      expandedItems := [];
    }

    /**
     * toggleSubmenu: the submenu `title` opens when it was closed (its
     * title appended) and closes when it was open (every occurrence of its
     * title dropped); the collapse state is untouched.
     */
    method ToggleSubmenu(title: Item)
      modifies this
      ensures expandedItems == Toggle(old(expandedItems), title)
      ensures title in expandedItems <==> title !in old(expandedItems)
      ensures forall t :: t != title ==> (t in expandedItems <==> t in old(expandedItems))
      ensures NoDuplicates(old(expandedItems)) ==> NoDuplicates(expandedItems)
      ensures isCollapsed == old(isCollapsed)
    {
      if NoDuplicates(expandedItems) {
        ToggleNoDuplicates(expandedItems, title);
      }
      expandedItems := Toggle(expandedItems, title);
    }

    /** The menu button: the collapse state flips; the open submenus stay as they were. */
    method ToggleCollapsed()
      modifies this
      ensures isCollapsed == !old(isCollapsed)
      ensures expandedItems == old(expandedItems)
    {
      isCollapsed := !isCollapsed;
    }
  }
}
