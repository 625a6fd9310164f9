/**
 * The Eclipse workspace and JDT values the plugin touches, as plain values.
 * A workspace knows which projects exist, which project folders exist, which
 * folders `IFolder.create` would make without a `CoreException`, and where on
 * disk its root lies (a folder's location is `root/project/folder`).
 */
module Eclipse {
  import opened JavaLang
  import opened Files

  datatype Workspace = Workspace(
    root: Str,
    projects: set<Str>,
    folders: set<(Str, Str)>,
    creatable: set<(Str, Str)>)

  /** `project.getFolder(folder).getLocationURI()`, as a file-system path. */
  function FolderLocation(ws: Workspace, project: Str, folder: Str): Str
  {
    Child(Child(ws.root, project), folder)
  }

  /** `JavaCore.newClasspathAttribute(name, value)`. */
  datatype ClasspathAttribute = ClasspathAttribute(name: Str, value: Str)
}
