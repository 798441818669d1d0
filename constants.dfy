/** Paths shared by several parts of the packager. */
module Constants {
  /** Where the build installs inside the container. */
  const DockerInstallDir := "/INSTALL"
  /** Where the package's repository is cloned inside the container. */
  const DockerGitCloneDir := "/git"
  /** Under the working directory: where the container's install directory is copied. */
  const LocalInstallDirName := "/localInstall"
  const DefaultSSHPort := 1122
}
